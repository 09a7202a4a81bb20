/** Order and repetition of purchase deliveries do not matter to the ledger. */
module DeliveryLogs {
  import opened Prelude
  import opened WalletDomain
  import opened WalletLedger

  predicate IsPurchase(r: Request) {
    r.entry.key.Some? && r.entry.delta > 0 && r.donation.None?
  }

  /** Purchase requests as the credit consumer builds them; a key names one event. */
  ghost predicate PurchaseLog(rs: seq<Request>) {
    && (forall r :: r in rs ==> IsPurchase(r))
    && (forall r, q :: r in rs && q in rs && r.entry.key == q.entry.key ==> r == q)
  }

  lemma {:induction false} FrontOfLog(rs: seq<Request>)
    requires PurchaseLog(rs) && rs != []
    ensures PurchaseLog(rs[..|rs| - 1]) && IsPurchase(rs[|rs| - 1])
    ensures forall r :: r in rs <==> r in rs[..|rs| - 1] || r == rs[|rs| - 1]
  {
    assert rs == rs[..|rs| - 1] + [rs[|rs| - 1]];
  }

  ghost predicate SameEvents(a: seq<Request>, b: seq<Request>) {
    forall r :: r in a <==> r in b
  }

  ghost predicate Distinct<T>(s: seq<T>) {
    forall i, j :: 0 <= i < j < |s| ==> s[i] != s[j]
  }

  /** One more purchase either meets its own key or adds its line. */
  lemma {:induction false} OneMorePurchase(b: Books, rs: seq<Request>)
    requires rs != [] && IsPurchase(rs[|rs| - 1])
    ensures var c, e := ApplyAll(b, rs[..|rs| - 1]), rs[|rs| - 1].entry;
            ApplyAll(b, rs).lines == if KeyTaken(c.lines, e.key) then c.lines else c.lines + [e]
  {
  }

  lemma {:induction false} BalanceAfter(c: Books, r: Request, u: Uuid)
    ensures Apply(c, r).lines == if Decide(c, r).Applied? then c.lines + [r.entry] else c.lines
    ensures Balance(Apply(c, r), u) ==
            Balance(c, u) + if Decide(c, r).Applied? && r.entry.user == u then r.entry.delta else 0
  {
  }

  /** A line moves its owner's balance by what it says, and no other balance. */
  lemma {:induction false} PurchaseMovesBalance(c: Books, r: Request, u: Uuid)
    ensures c.lines <= Apply(c, r).lines
    ensures Balance(Apply(c, r), u) - Balance(c, u) == SumDeltas(Apply(c, r).lines, u) - SumDeltas(c.lines, u)
  {
    BalanceAfter(c, r, u);
    if Decide(c, r).Applied? {
      SumAfter(c.lines, r.entry, u);
    }
  }

  lemma {:induction false} PurchasesMoveBalances(b: Books, rs: seq<Request>, u: Uuid)
    ensures b.lines <= ApplyAll(b, rs).lines
    ensures Balance(ApplyAll(b, rs), u) - Balance(b, u) ==
            SumDeltas(ApplyAll(b, rs).lines, u) - SumDeltas(b.lines, u)
  {
    if rs != [] {
      PurchasesMoveBalances(b, rs[..|rs| - 1], u);
      PurchaseMovesBalance(ApplyAll(b, rs[..|rs| - 1]), rs[|rs| - 1], u);
    }
  }

  /** Every line from position `n` on has a key, and no earlier line has it. */
  ghost predicate NewKeysFrom(lines: seq<CreditTransaction>, n: nat) {
    forall i, j :: 0 <= i < j < |lines| && n <= j ==> NewKey(lines[i], lines[j])
  }

  predicate NewKey(earlier: CreditTransaction, later: CreditTransaction) {
    later.key.Some? && earlier.key != later.key
  }

  lemma {:induction false} AddedKeysAreNew(b: Books, rs: seq<Request>)
    requires PurchaseLog(rs)
    ensures NewKeysFrom(ApplyAll(b, rs).lines, |b.lines|)
  {
    if rs != [] {
      var c, after := ApplyAll(b, rs[..|rs| - 1]).lines, ApplyAll(b, rs).lines;
      FrontOfLog(rs);
      AddedKeysAreNew(b, rs[..|rs| - 1]);
      OneMorePurchase(b, rs);
      forall i, j | 0 <= i < j < |after| && |b.lines| <= j ensures NewKey(after[i], after[j]) {
        if j < |c| {
          assert NewKey(c[i], c[j]);
        } else {
          assert after[i] == c[i];
        }
      }
    }
  }

  ghost predicate FromLog(rs: seq<Request>, e: CreditTransaction) {
    exists r :: r in rs && r.entry == e
  }

  lemma {:induction false} LinesHaveAnOrigin(b: Books, rs: seq<Request>, e: CreditTransaction)
    requires PurchaseLog(rs) && e in ApplyAll(b, rs).lines
    ensures e in b.lines || FromLog(rs, e)
  {
    if rs != [] {
      var front, r := rs[..|rs| - 1], rs[|rs| - 1];
      FrontOfLog(rs);
      OneMorePurchase(b, rs);
      if e in ApplyAll(b, front).lines {
        LinesHaveAnOrigin(b, front, e);
      } else {
        assert r in rs && r.entry == e;
      }
    }
  }

  lemma {:induction false} TakenStays(lines: seq<CreditTransaction>, e: CreditTransaction, key: Option<string>)
    ensures KeyTaken(lines, key) || (key.Some? && e.key == key) ==> KeyTaken(lines + [e], key)
  {
    if KeyTaken(lines, key) {
      var i :| 0 <= i < |lines| && lines[i].key == key;
      assert (lines + [e])[i].key == key;
    } else if key.Some? && e.key == key {
      assert (lines + [e])[|lines|].key == key;
    }
  }

  /** Every key delivered ends up on a line. */
  lemma {:induction false} DeliveredKeyIsTaken(b: Books, rs: seq<Request>, r: Request)
    requires PurchaseLog(rs) && r in rs
    ensures KeyTaken(ApplyAll(b, rs).lines, r.entry.key)
  {
    var front, last := rs[..|rs| - 1], rs[|rs| - 1];
    var c, after := ApplyAll(b, front).lines, ApplyAll(b, rs).lines;
    FrontOfLog(rs);
    OneMorePurchase(b, rs);
    if r != last {
      DeliveredKeyIsTaken(b, front, r);
    }
    TakenStays(c, last.entry, r.entry.key);
    assert after == if KeyTaken(c, last.entry.key) then c else c + [last.entry];
  }

  lemma {:induction false} FirstElement<T>(s: seq<T>)
    ensures s != [] ==> s[0] in s
  {
  }

  lemma {:induction false} PrefixElement<T>(base: seq<T>, x: seq<T>, m: nat)
    requires base <= x
    ensures m < |base| ==> x[m] in base
  {
    assert m < |base| ==> x[m] == base[m];
  }

  lemma {:induction false} LastIsKept<T>(s: seq<T>, k: nat)
    requires k < |s| - 1
    ensures var n := |s| - 1;
            s[..k] + s[k + 1..] == s[..n][..k] + s[..n][k + 1..] + [s[n]]
  {
    var n := |s| - 1;
    assert s[..k] == s[..n][..k];
    assert s[k + 1..] == s[..n][k + 1..] + [s[n]];
  }

  lemma {:induction false} SumWithout(s: seq<CreditTransaction>, k: nat, user: Uuid)
    requires k < |s|
    ensures SumDeltas(s, user) ==
            SumDeltas(s[..k] + s[k + 1..], user) + (if s[k].user == user then s[k].delta else 0)
  {
    var n := |s| - 1;
    if k == n {
      assert s[..k] + s[k + 1..] == s[..n];
    } else {
      SumWithout(s[..n], k, user);
      LastIsKept(s, k);
      SumAfter(s[..n][..k] + s[..n][k + 1..], s[n], user);
    }
  }

  lemma {:induction false} SumOfSameElements(s: seq<CreditTransaction>, t: seq<CreditTransaction>, user: Uuid)
    requires Distinct(s) && Distinct(t)
    requires forall e :: e in s <==> e in t
    ensures SumDeltas(s, user) == SumDeltas(t, user)
  {
    if s == [] {
      FirstElement(t);
    } else {
      var n := |s| - 1;
      assert s[n] in t;
      var k :| 0 <= k < |t| && t[k] == s[n];
      var t' := t[..k] + t[k + 1..];
      SumWithout(t, k, user);
      forall e ensures e in s[..n] <==> e in t' {
        if e in t' { assert e in t && e != s[n]; assert e in s; }
        if e in s[..n] { assert e in s && e != s[n]; assert e in t; }
      }
      SumOfSameElements(s[..n], t', user);
    }
  }

  /** Two purchase delivery logs that carry the same events, however ordered and repeated, end in the
      same balances and the same lines, with exactly one line for each key delivered. */
  lemma {:induction false} OrderAndRepetitionDoNotMatter(b: Books, xs: seq<Request>, ys: seq<Request>)
    requires PurchaseLog(xs) && PurchaseLog(ys) && SameEvents(xs, ys)
    requires UniqueKeys(b.lines)
    ensures forall u :: Balance(ApplyAll(b, xs), u) == Balance(ApplyAll(b, ys), u)
    ensures forall e :: e in ApplyAll(b, xs).lines <==> e in ApplyAll(b, ys).lines
    ensures UniqueKeys(ApplyAll(b, xs).lines)
    ensures forall r :: r in xs ==> KeyTaken(ApplyAll(b, xs).lines, r.entry.key)
    ensures ApplyAll(b, xs).donations == ApplyAll(b, ys).donations == b.donations
  {
    SameLines(b, xs, ys);
    forall u ensures Balance(ApplyAll(b, xs), u) == Balance(ApplyAll(b, ys), u) {
      SameBalance(b, xs, ys, u);
    }
    KeysStayUnique(b, xs);
    DonationsUntouched(b, xs);
    DonationsUntouched(b, ys);
    forall r | r in xs ensures KeyTaken(ApplyAll(b, xs).lines, r.entry.key) {
      DeliveredKeyIsTaken(b, xs, r);
    }
  }

  lemma {:induction false} SameLines(b: Books, xs: seq<Request>, ys: seq<Request>)
    requires PurchaseLog(xs) && PurchaseLog(ys) && SameEvents(xs, ys)
    ensures forall e :: e in ApplyAll(b, xs).lines <==> e in ApplyAll(b, ys).lines
  {
    forall e | e in ApplyAll(b, xs).lines ensures e in ApplyAll(b, ys).lines {
      LineInBoth(b, xs, ys, e);
    }
    forall e | e in ApplyAll(b, ys).lines ensures e in ApplyAll(b, xs).lines {
      LineInBoth(b, ys, xs, e);
    }
  }

  lemma {:induction false} KeyBeyondBase(base: seq<CreditTransaction>, x: seq<CreditTransaction>, n: nat, m: nat)
    requires base <= x && NewKeysFrom(x, |base|)
    requires n < |base| && m < |x| && x[m] !in base
    ensures base[n].key != x[m].key
  {
    PrefixElement(base, x, m);
    assert NewKey(x[n], x[m]);
  }

  lemma {:induction false} LineInBoth(b: Books, xs: seq<Request>, ys: seq<Request>, e: CreditTransaction)
    requires PurchaseLog(xs) && PurchaseLog(ys) && SameEvents(xs, ys)
    requires e in ApplyAll(b, xs).lines
    ensures e in ApplyAll(b, ys).lines
  {
    var x, y := ApplyAll(b, xs).lines, ApplyAll(b, ys).lines;
    PurchasesMoveBalances(b, xs, "");
    PurchasesMoveBalances(b, ys, "");
    LinesHaveAnOrigin(b, xs, e);
    if e in b.lines {
      var i :| 0 <= i < |b.lines| && b.lines[i] == e;
      assert y[i] == e;
    } else {
      var r :| r in xs && r.entry == e;
      DeliveredKeyIsTaken(b, ys, r);
      var k :| 0 <= k < |y| && y[k].key == e.key;
      LinesHaveAnOrigin(b, ys, y[k]);
      if FromLog(ys, y[k]) {
        var q :| q in ys && q.entry == y[k];
        assert q in xs;
      } else {
        var n :| 0 <= n < |b.lines| && b.lines[n] == y[k];
        var m :| 0 <= m < |x| && x[m] == e;
        AddedKeysAreNew(b, xs);
        KeyBeyondBase(b.lines, x, n, m);
      }
    }
  }

  lemma {:induction false} SameBalance(b: Books, xs: seq<Request>, ys: seq<Request>, u: Uuid)
    requires PurchaseLog(xs) && PurchaseLog(ys) && SameEvents(xs, ys)
    ensures Balance(ApplyAll(b, xs), u) == Balance(ApplyAll(b, ys), u)
  {
    var x, y := ApplyAll(b, xs).lines, ApplyAll(b, ys).lines;
    SameLines(b, xs, ys);
    AddedKeysAreNew(b, xs);
    AddedKeysAreNew(b, ys);
    PurchasesMoveBalances(b, xs, u);
    PurchasesMoveBalances(b, ys, u);
    SameSums(b.lines, x, y, u);
  }

  lemma {:induction false} SameSums(base: seq<CreditTransaction>, x: seq<CreditTransaction>, y: seq<CreditTransaction>, u: Uuid)
    requires base <= x && base <= y
    requires forall e :: e in x <==> e in y
    requires NewKeysFrom(x, |base|) && NewKeysFrom(y, |base|)
    ensures SumDeltas(x, u) == SumDeltas(y, u)
  {
    SameTail(base, x, y);
    SumOfSameElements(x[|base|..], y[|base|..], u);
    SumOfConcat(base, x[|base|..], u);
    SumOfConcat(base, y[|base|..], u);
    assert base + x[|base|..] == x && base + y[|base|..] == y;
  }

  /** Two extensions of the same lines by new keyed lines, with the same elements, have tails with
      the same elements. */
  lemma {:induction false} SameTail(base: seq<CreditTransaction>, x: seq<CreditTransaction>, y: seq<CreditTransaction>)
    requires base <= x && base <= y
    requires forall e :: e in x <==> e in y
    requires NewKeysFrom(x, |base|)
    requires NewKeysFrom(y, |base|)
    ensures Distinct(x[|base|..]) && Distinct(y[|base|..])
    ensures forall e :: e in x[|base|..] <==> e in y[|base|..]
  {
    TailInTail(base, x, y);
    TailInTail(base, y, x);
    TailDistinct(base, x);
    TailDistinct(base, y);
  }

  lemma {:induction false} TailDistinct(base: seq<CreditTransaction>, x: seq<CreditTransaction>)
    requires base <= x && NewKeysFrom(x, |base|)
    ensures Distinct(x[|base|..])
  {
    forall i, j | 0 <= i < j < |x| - |base| ensures x[|base|..][i] != x[|base|..][j] {
      assert NewKey(x[|base| + i], x[|base| + j]);
    }
  }

  lemma {:induction false} NewLineIsNotInBase(base: seq<CreditTransaction>, x: seq<CreditTransaction>, j: nat, k: nat)
    requires base <= x && NewKeysFrom(x, |base|) && |base| <= j < |x|
    ensures k < |base| ==> base[k] != x[j]
  {
    assert k < |base| ==> NewKey(x[k], x[j]);
  }

  lemma {:induction false} TailInTail(base: seq<CreditTransaction>, x: seq<CreditTransaction>, y: seq<CreditTransaction>)
    requires base <= x && base <= y
    requires forall e :: e in x ==> e in y
    requires NewKeysFrom(x, |base|)
    ensures forall e :: e in x[|base|..] ==> e in y[|base|..]
  {
    forall e | e in x[|base|..] ensures e in y[|base|..] {
      var j :| |base| <= j < |x| && x[j] == e;
      assert e in x;
      var k :| 0 <= k < |y| && y[k] == e;
      NewLineIsNotInBase(base, x, j, k);
      assert y[|base|..][k - |base|] == e;
    }
  }

  lemma {:induction false} SumOfConcat(s: seq<CreditTransaction>, t: seq<CreditTransaction>, u: Uuid)
    ensures SumDeltas(s + t, u) == SumDeltas(s, u) + SumDeltas(t, u)
  {
    if t == [] {
      assert s + t == s;
    } else {
      assert s + t == (s + t[..|t| - 1]) + [t[|t| - 1]];
      SumAfter(s + t[..|t| - 1], t[|t| - 1], u);
      SumOfConcat(s, t[..|t| - 1], u);
    }
  }

  lemma {:induction false} KeysStayUnique(b: Books, rs: seq<Request>)
    requires UniqueKeys(b.lines)
    ensures UniqueKeys(ApplyAll(b, rs).lines)
  {
    if rs != [] {
      KeysStayUnique(b, rs[..|rs| - 1]);
    }
  }

  lemma {:induction false} DonationsUntouched(b: Books, rs: seq<Request>)
    requires PurchaseLog(rs)
    ensures ApplyAll(b, rs).donations == b.donations
  {
    if rs != [] {
      FrontOfLog(rs);
      DonationsUntouched(b, rs[..|rs| - 1]);
    }
  }

  // ------------------------------------------------------------------ refunds

  lemma {:induction false} TwoInARow(b: Books, x: Request, y: Request)
    ensures ApplyAll(b, [x, y]) == Apply(Apply(b, x), y)
  {
    assert [x, y][..1] == [x] && [x][..0] == [];
    assert ApplyAll(b, [x]) == Apply(b, x);
  }

  lemma {:induction false} KeyStillFree(b: Books, x: Request, key: Option<string>)
    requires !KeyTaken(b.lines, key) && x.entry.key != key
    ensures !KeyTaken(Apply(b, x).lines, key)
  {
  }

  /** A refund is not insensitive to order. It and a purchase of the same user, each for the first time,
      leave the same balance in both orders exactly unless the refund is covered only after the purchase. */
  lemma {:induction false} RefundAndPurchaseCommuteExactlyWhen(b: Books, p: Request, r: Request)
    requires IsPurchase(p) && r.entry.delta < 0 && r.entry.key.Some? && p.entry.user == r.entry.user
    requires p.entry.key != r.entry.key && !KeyTaken(b.lines, p.entry.key) && !KeyTaken(b.lines, r.entry.key)
    ensures var user := p.entry.user;
            Balance(ApplyAll(b, [p, r]), user) == Balance(ApplyAll(b, [r, p]), user) <==>
              !(Balance(b, user) < -r.entry.delta <= Balance(b, user) + p.entry.delta)
  {
    var user := p.entry.user;
    TwoInARow(b, p, r);
    TwoInARow(b, r, p);
    KeyStillFree(b, p, r.entry.key);
    KeyStillFree(b, r, p.entry.key);
    BalanceAfter(b, p, user);
    BalanceAfter(b, r, user);
    BalanceAfter(Apply(b, p), r, user);
    BalanceAfter(Apply(b, r), p, user);
  }

  /** Ten credits bought and refunded: in order nothing is left, the other way round all ten are. */
  lemma {:induction false} RefundBeforePurchaseIsRefused()
    ensures var p := Request(CreditTransaction("u", 10, Purchase, None, Some("a")), None);
            var r := Request(CreditTransaction("u", -10, Refund, None, Some("b")), None);
            Balance(ApplyAll(EMPTY, [p, r]), "u") == 0 && Balance(ApplyAll(EMPTY, [r, p]), "u") == 10
  {
    var p := Request(CreditTransaction("u", 10, Purchase, None, Some("a")), None);
    var r := Request(CreditTransaction("u", -10, Refund, None, Some("b")), None);
    TwoInARow(EMPTY, p, r);
    TwoInARow(EMPTY, r, p);
    KeyStillFree(EMPTY, p, r.entry.key);
    KeyStillFree(EMPTY, r, p.entry.key);
  }
}
