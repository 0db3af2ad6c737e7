// Whole runs of the OTP store. Position n of a run is the state before operation n.

module OtpRuns {
  import opened Common
  import opened OtpStore

  /** Each operation reads the clock twice: for its sweep, and for itself. */
  datatype Op =
    | Create(otp: Otp, claims: Claims, sweep: Time, now: Time)
    | Exchange(otp: Otp, sweep: Time, now: Time)

  function Store(ops: seq<Op>, n: nat): map<Otp, Entry>
    requires n <= |ops|
  {
    if n == 0 then map[] else
    match ops[n - 1]
    case Create(o, c, sweep, now) => AfterCreate(Store(ops, n - 1), o, c, sweep, now)
    case Exchange(o, sweep, now) => AfterExchange(Store(ops, n - 1), o, sweep, now).0
  }

  function Answer(ops: seq<Op>, i: nat): Option<Claims>
    requires i < |ops| && ops[i].Exchange?
  {
    AfterExchange(Store(ops, i), ops[i].otp, ops[i].sweep, ops[i].now).1
  }

  /** Tokens are drawn at random: no two operations create the same one. */
  ghost predicate Fresh(ops: seq<Op>) {
    forall i, j :: 0 <= i < j < |ops| && ops[i].Create? && ops[j].Create? ==> ops[i].otp != ops[j].otp
  }

  ghost predicate ClockOrdered(ops: seq<Op>) {
    && (forall i :: 0 <= i < |ops| ==> ops[i].sweep <= ops[i].now)
    && (forall i, j :: 0 <= i < j < |ops| ==> ops[i].now <= ops[j].sweep)
  }

  /** Operation j created o, and o was not presented again before position n. */
  ghost predicate Outstanding(ops: seq<Op>, j: nat, o: Otp, n: nat)
    requires n <= |ops|
  {
    && j < n && ops[j].Create? && ops[j].otp == o
    && forall k :: j < k < n && ops[k].Exchange? ==> ops[k].otp != o
  }

  function Expiry(op: Op): Time {
    op.now + OTP_EXPIRE_SECONDS
  }

  /** No sweep after operation j and before position n was past the expiry of j. */
  ghost predicate Unswept(ops: seq<Op>, j: nat, n: nat)
    requires j < n <= |ops|
  {
    forall k :: j < k < n ==> ops[k].sweep <= Expiry(ops[j])
  }

  /** What the store holds, told from the operations alone. */
  lemma {:induction false} StoreIs(ops: seq<Op>, n: nat, o: Otp, e: Entry)
    requires Fresh(ops) && n <= |ops|
    ensures (o in Store(ops, n) && Store(ops, n)[o] == e) <==>
      exists j :: 0 <= j < n && Outstanding(ops, j, o, n) && Unswept(ops, j, n) && e == Entry(ops[j].claims, Expiry(ops[j]))
  {
    if n > 0 {
      StoreIs(ops, n - 1, o, e);
      var op := ops[n - 1];
      if op.Create? && op.otp == o {
        assert Outstanding(ops, n - 1, o, n) && Unswept(ops, n - 1, n);
        assert forall j :: 0 <= j < n - 1 ==> !Outstanding(ops, j, o, n);
      } else {
        StoreCarries(ops, n, o, e);
      }
    }
  }

  lemma StoreCarries(ops: seq<Op>, n: nat, o: Otp, e: Entry)
    requires 0 < n <= |ops| && !(ops[n - 1].Create? && ops[n - 1].otp == o)
    requires (o in Store(ops, n - 1) && Store(ops, n - 1)[o] == e) <==>
      exists j :: 0 <= j < n - 1 && Outstanding(ops, j, o, n - 1) && Unswept(ops, j, n - 1)
        && e == Entry(ops[j].claims, Expiry(ops[j]))
    ensures (o in Store(ops, n) && Store(ops, n)[o] == e) <==>
      exists j :: 0 <= j < n && Outstanding(ops, j, o, n) && Unswept(ops, j, n) && e == Entry(ops[j].claims, Expiry(ops[j]))
  {
  }

  /** An exchange answers claims c exactly when o was created with c, was not presented
      since, was swept by no clock read past its expiry, and is not past it now. Nothing
      is assumed of the clock. */
  lemma ExchangeAnswersIff(ops: seq<Op>, i: nat, c: Claims)
    requires Fresh(ops) && i < |ops| && ops[i].Exchange?
    ensures Answer(ops, i) == Some(c) <==>
      exists j :: 0 <= j < i && Outstanding(ops, j, ops[i].otp, i) && ops[j].claims == c
        && Unswept(ops, j, i + 1) && ops[i].now <= Expiry(ops[j])
  {
    var o, store := ops[i].otp, Store(ops, i);
    if Answer(ops, i) == Some(c) {
      StoreIs(ops, i, o, store[o]);
      var j :| 0 <= j < i && Outstanding(ops, j, o, i) && Unswept(ops, j, i) && store[o] == Entry(ops[j].claims, Expiry(ops[j]));
      assert Unswept(ops, j, i + 1);
    }
    if j :| 0 <= j < i && Outstanding(ops, j, o, i) && ops[j].claims == c && Unswept(ops, j, i + 1) && ops[i].now <= Expiry(ops[j]) {
      assert ops[i].sweep <= Expiry(ops[j]);
      assert Unswept(ops, j, i);
      StoreIs(ops, i, o, Entry(c, Expiry(ops[j])));
    }
  }

  /** With a clock that never steps back: created with c, not presented since, not expired. */
  lemma ExchangeOnTime(ops: seq<Op>, i: nat, c: Claims)
    requires Fresh(ops) && ClockOrdered(ops) && i < |ops| && ops[i].Exchange?
    ensures Answer(ops, i) == Some(c) <==>
      exists j :: 0 <= j < i && Outstanding(ops, j, ops[i].otp, i) && ops[j].claims == c && ops[i].now <= ops[j].now + 60
  {
    ExchangeAnswersIff(ops, i, c);
    if j :| 0 <= j < i && Outstanding(ops, j, ops[i].otp, i) && ops[j].claims == c && ops[i].now <= ops[j].now + 60 {
      forall k | j < k < i + 1 ensures ops[k].sweep <= Expiry(ops[j]) {
        assert k < i ==> ops[k].now <= ops[i].sweep;
      }
      assert Unswept(ops, j, i + 1);
    }
  }

  /** A token is spent by its first presentation, whatever that answered. */
  lemma SingleUse(ops: seq<Op>, i: nat, k: nat)
    requires Fresh(ops) && i < k < |ops| && ops[i].Exchange? && ops[k].Exchange? && ops[i].otp == ops[k].otp
    requires exists j :: 0 <= j < i && ops[j].Create? && ops[j].otp == ops[i].otp
    ensures Answer(ops, k) == None
  {
    if Answer(ops, k).Some? {
      ExchangeAnswersIff(ops, k, Answer(ops, k).value);
    }
  }

  // ----- A store that never sweeps -----

  function Unsweeping(ops: seq<Op>, n: nat): map<Otp, Entry>
    requires n <= |ops|
  {
    if n == 0 then map[] else
    match ops[n - 1]
    case Create(o, c, _, now) => Unsweeping(ops, n - 1)[o := Entry(c, now + OTP_EXPIRE_SECONDS)]
    case Exchange(o, _, _) => Unsweeping(ops, n - 1) - {o}
  }

  function UnsweepingAnswer(ops: seq<Op>, i: nat): Option<Claims>
    requires i < |ops| && ops[i].Exchange?
  {
    var o, store := ops[i].otp, Unsweeping(ops, i);
    if o in store && !(ops[i].now > store[o].expires) then Some(store[o].claims) else None
  }

  /** The swept store lacks only entries that no later clock read finds alive. */
  lemma {:induction false} SweptLacksOnlyExpired(ops: seq<Op>, n: nat)
    requires ClockOrdered(ops) && n <= |ops|
    ensures forall o :: o in Store(ops, n) ==> o in Unsweeping(ops, n) && Store(ops, n)[o] == Unsweeping(ops, n)[o]
    ensures forall o :: o in Unsweeping(ops, n) && o !in Store(ops, n) ==> n > 0 && Unsweeping(ops, n)[o].expires < ops[n - 1].now
  {
    if n > 0 {
      SweptLacksOnlyExpired(ops, n - 1);
    }
  }

  /** Sweeping is unobservable: every exchange answers as if nothing were ever swept. */
  lemma SweepingIsUnobservable(ops: seq<Op>, i: nat)
    requires ClockOrdered(ops) && i < |ops| && ops[i].Exchange?
    ensures Answer(ops, i) == UnsweepingAnswer(ops, i)
  {
    SweptLacksOnlyExpired(ops, i);
  }

  /** What the store that never sweeps holds, told from the operations alone. */
  lemma {:induction false} UnsweepingIs(ops: seq<Op>, n: nat, o: Otp, e: Entry)
    requires Fresh(ops) && n <= |ops|
    ensures (o in Unsweeping(ops, n) && Unsweeping(ops, n)[o] == e) <==>
      exists j :: 0 <= j < n && Outstanding(ops, j, o, n) && e == Entry(ops[j].claims, Expiry(ops[j]))
  {
    if n > 0 {
      UnsweepingIs(ops, n - 1, o, e);
      var op := ops[n - 1];
      if op.Create? && op.otp == o {
        assert Outstanding(ops, n - 1, o, n);
        assert forall j :: 0 <= j < n - 1 ==> !Outstanding(ops, j, o, n);
      } else {
        UnsweepingCarries(ops, n, o, e);
      }
    }
  }

  lemma UnsweepingCarries(ops: seq<Op>, n: nat, o: Otp, e: Entry)
    requires 0 < n <= |ops| && !(ops[n - 1].Create? && ops[n - 1].otp == o)
    requires (o in Unsweeping(ops, n - 1) && Unsweeping(ops, n - 1)[o] == e) <==>
      exists j :: 0 <= j < n - 1 && Outstanding(ops, j, o, n - 1) && e == Entry(ops[j].claims, Expiry(ops[j]))
    ensures (o in Unsweeping(ops, n) && Unsweeping(ops, n)[o] == e) <==>
      exists j :: 0 <= j < n && Outstanding(ops, j, o, n) && e == Entry(ops[j].claims, Expiry(ops[j]))
  {
  }

  lemma UnsweepingAnswersIff(ops: seq<Op>, i: nat, c: Claims)
    requires Fresh(ops) && i < |ops| && ops[i].Exchange?
    ensures UnsweepingAnswer(ops, i) == Some(c) <==>
      exists j :: 0 <= j < i && Outstanding(ops, j, ops[i].otp, i) && ops[j].claims == c && ops[i].now <= Expiry(ops[j])
  {
    var o, store := ops[i].otp, Unsweeping(ops, i);
    if UnsweepingAnswer(ops, i) == Some(c) {
      UnsweepingIs(ops, i, o, store[o]);
    }
    if j :| 0 <= j < i && Outstanding(ops, j, o, i) && ops[j].claims == c && ops[i].now <= Expiry(ops[j]) {
      UnsweepingIs(ops, i, o, Entry(c, Expiry(ops[j])));
    }
  }

  /** No two creations of one token are outstanding. */
  lemma OutstandingIsUnique(ops: seq<Op>, n: nat, o: Otp, j: nat, k: nat)
    requires Fresh(ops) && n <= |ops| && Outstanding(ops, j, o, n) && Outstanding(ops, k, o, n)
    ensures j == k
  {
  }

  /** Whatever the clock does, a sweep shows in an exchange if and only if the token is
      outstanding and not past its expiry now, but some sweep since its creation, the
      exchange's own included, read the clock past its expiry. */
  lemma SweepShowsIff(ops: seq<Op>, i: nat)
    requires Fresh(ops) && i < |ops| && ops[i].Exchange?
    ensures Answer(ops, i) != UnsweepingAnswer(ops, i) <==>
      exists j :: 0 <= j < i && Outstanding(ops, j, ops[i].otp, i) && ops[i].now <= Expiry(ops[j]) && !Unswept(ops, j, i + 1)
  {
    var o := ops[i].otp;
    if j :| 0 <= j < i && Outstanding(ops, j, o, i) && ops[i].now <= Expiry(ops[j]) {
      UnsweepingAnswersIff(ops, i, ops[j].claims);
      ExchangeAnswersIff(ops, i, ops[j].claims);
      assert forall k :: 0 <= k < i && Outstanding(ops, k, o, i) ==> k == j by {
        forall k | 0 <= k < i && Outstanding(ops, k, o, i) ensures k == j {
          OutstandingIsUnique(ops, i, o, j, k);
        }
      }
    } else {
      if UnsweepingAnswer(ops, i).Some? {
        UnsweepingAnswersIff(ops, i, UnsweepingAnswer(ops, i).value);
      }
      if Answer(ops, i).Some? {
        ExchangeAnswersIff(ops, i, Answer(ops, i).value);
      }
    }
  }

  /** A sweep during a clock that later steps back is observable. */
  lemma SteppedBackClockForgets()
    ensures var c := Claims("u", "t");
      var ops := [Create("o", c, 0, 0), Create("p", c, 100, 100), Exchange("o", 50, 50)];
      Answer(ops, 2) == None && UnsweepingAnswer(ops, 2) == Some(c)
  {
  }
}
