// hindsight_manager/auth/session.py: one-time passwords held in a module dictionary.

module OtpStore {
  import opened Common

  type Otp = string
  type Time = int

  const OTP_EXPIRE_SECONDS: int := 60

  datatype Claims = Claims(userId: string, tenantId: string)
  datatype Entry = Entry(claims: Claims, expires: Time)

  /** The entries a sweep at `now` keeps. */
  function Swept(store: map<Otp, Entry>, now: Time): map<Otp, Entry> {
    map o | o in store && !(now > store[o].expires) :: store[o]
  }

  function AfterCreate(store: map<Otp, Entry>, otp: Otp, claims: Claims, sweep: Time, now: Time): map<Otp, Entry> {
    Swept(store, sweep)[otp := Entry(claims, now + OTP_EXPIRE_SECONDS)]
  }

  function AfterExchange(store: map<Otp, Entry>, otp: Otp, sweep: Time, now: Time): (map<Otp, Entry>, Option<Claims>) {
    var swept := Swept(store, sweep);
    (swept - {otp}, if otp in swept && !(now > swept[otp].expires) then Some(swept[otp].claims) else None)
  }

  class Otps {
    var store: map<Otp, Entry>

    constructor ()
      ensures store == map[]
    {
      store := map[];
    }

    method Cleanup(now: Time)
      modifies this
      ensures store == Swept(old(store), now)
    {
      var expired := set o | o in store && now > store[o].expires;
      var todo := expired;
      while todo != {}
        invariant todo <= expired
        invariant store == old(store) - (expired - todo)
        decreases todo
      {
        var o :| o in todo;
        store := store - {o};
        todo := todo - {o};
      }
    }

    /** `otp` is the token drawn from the generator; each clock read is an argument. */
    method Create(otp: Otp, claims: Claims, sweep: Time, now: Time)
      modifies this
      ensures store == AfterCreate(old(store), otp, claims, sweep, now)
    {
      Cleanup(sweep);
      store := store[otp := Entry(claims, now + OTP_EXPIRE_SECONDS)];
    }

    method Exchange(otp: Otp, sweep: Time, now: Time) returns (r: Option<Claims>)
      modifies this
      ensures (store, r) == AfterExchange(old(store), otp, sweep, now)
    {
      Cleanup(sweep);
      if otp !in store {
        assert store - {otp} == store;
        return None;
      }
      var entry := store[otp];
      store := store - {otp};
      if now > entry.expires {
        return None;
      }
      return Some(entry.claims);
    }
  }
}
