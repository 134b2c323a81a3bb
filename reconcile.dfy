/** One timer tick of the updater (main.ts:40-85): the gate on `busy` and `wait`, the
    cycle inside the `try` block (probe, log in if needed, read the desired and the
    published addresses, write what differs), and the `catch` handler. */
module Reconcile {
  import opened JsValues
  import opened JsStrings
  import opened Settings
  import opened Session
  import opened Tokens
  import opened Records

  /** The replies one tick awaits, grouped by the call that awaits them. */
  datatype TickInput = TickInput(
    probe: Res<string>,         // isAuthenticated(), main.ts:49
    login: LoginReplies,        // login(), main.ts:51
    ipV4: Res<string>,          // v4() of public-ip, main.ts:61
    currentV4: RecordReplies,   // getCurrentIPV4, main.ts:62
    ipV6: Res<string>,          // v6() of public-ip, main.ts:65
    currentV6: RecordReplies,   // getCurrentIPV6, main.ts:66
    setV4: SetReplies,          // setIPV4, main.ts:72
    setV6: SetReplies)          // setIPV6, main.ts:77

  /** The desired addresses and the published ones, `None` where no record was found. */
  datatype Addresses = Addresses(ipV4: string, domainIpV4: Option<string>, ipV6: string, domainIpV6: Option<string>)

  /** A call of `setIP`: which record, which address, and the PUT it sent, if any. */
  datatype Attempt = Attempt(isV6: bool, address: string, sent: Option<PutRequest>)

  /** How the `try` block ended: normally, by the early return after a refused login,
      or by a throw. */
  datatype CycleEnd = Finished | LoginRejected | Raised(exc: Exc)

  datatype CycleRun = CycleRun(attempts: seq<Attempt>, end: CycleEnd)

  /** main.ts:61-66, in the order awaited: v4, its record, v6, its record. */
  function ReadAddresses(cfg: Config, t: TickInput): (r: Res<Addresses>)
    ensures r.Ok? ==> t.ipV4 == Ok(r.value.ipV4) && t.ipV6 == Ok(r.value.ipV6)
    ensures r.Ok? ==> CurrentAddress(GetDomainRecord(cfg, cfg.domain.name, false, t.currentV4)) == Ok(r.value.domainIpV4)
    ensures r.Ok? ==> CurrentAddress(GetDomainRecord(cfg, cfg.domain.name, true, t.currentV6)) == Ok(r.value.domainIpV6)
    ensures t.ipV4.Throw? ==> r == Throw(t.ipV4.exc)
    ensures t.ipV4.Ok? && CurrentAddress(GetDomainRecord(cfg, cfg.domain.name, false, t.currentV4)).Throw? ==>
              r == Throw(CurrentAddress(GetDomainRecord(cfg, cfg.domain.name, false, t.currentV4)).exc)
    ensures t.ipV4.Ok? && CurrentAddress(GetDomainRecord(cfg, cfg.domain.name, false, t.currentV4)).Ok?
            && t.ipV6.Throw? ==>
              r == Throw(t.ipV6.exc)
    ensures t.ipV4.Ok? && CurrentAddress(GetDomainRecord(cfg, cfg.domain.name, false, t.currentV4)).Ok?
            && t.ipV6.Ok? ==>
              r.Ok? == CurrentAddress(GetDomainRecord(cfg, cfg.domain.name, true, t.currentV6)).Ok?
    ensures t.ipV4.Ok? && CurrentAddress(GetDomainRecord(cfg, cfg.domain.name, false, t.currentV4)).Ok?
            && t.ipV6.Ok? && CurrentAddress(GetDomainRecord(cfg, cfg.domain.name, true, t.currentV6)).Throw? ==>
              r == Throw(CurrentAddress(GetDomainRecord(cfg, cfg.domain.name, true, t.currentV6)).exc)
  {
    match t.ipV4
    case Throw(exc) => Throw(exc)
    case Ok(ipV4) =>
      match CurrentAddress(GetDomainRecord(cfg, cfg.domain.name, false, t.currentV4))
      case Throw(exc) => Throw(exc)
      case Ok(domainIpV4) =>
        match t.ipV6
        case Throw(exc) => Throw(exc)
        case Ok(ipV6) =>
          match CurrentAddress(GetDomainRecord(cfg, cfg.domain.name, true, t.currentV6))
          case Throw(exc) => Throw(exc)
          case Ok(domainIpV6) => Ok(Addresses(ipV4, domainIpV4, ipV6, domainIpV6))
  }

  /** `ip !== recorded`: `undefined` (no record) differs from every address. */
  predicate Differs(ip: string, recorded: Option<string>)
    ensures Differs(ip, recorded) <==> recorded.None? || recorded.value != ip
  {
    recorded != Some(ip)
  }

  /** The probe said logged in, or it said logged out and `login()` then resolved true. */
  ghost predicate Authorized(cfg: Config, t: TickInput) {
    || IsAuthenticated(t.probe) == Ok(true)
    || (IsAuthenticated(t.probe) == Ok(false) && Login(cfg, t.login).result == Ok(true))
  }

  ghost predicate Wrote(run: CycleRun, isV6: bool) {
    exists i :: 0 <= i < |run.attempts| && run.attempts[i].isV6 == isV6
  }

  /** The written attempt `a` is the `setIP` call for its record with its address. */
  ghost predicate FromSetIP(cfg: Config, subDomain: string, t: TickInput, a: Attempt) {
    a.sent == SetIP(cfg, subDomain, a.isV6, a.address, if a.isV6 then t.setV6 else t.setV4).sent
  }

  /** The `setIP` call of the attempt `a` threw `e`. */
  ghost predicate RaisedBy(cfg: Config, subDomain: string, t: TickInput, a: Attempt, e: Exc) {
    SetIP(cfg, subDomain, a.isV6, a.address, if a.isV6 then t.setV6 else t.setV4).result == Throw(e)
  }

  ghost predicate SetIPSucceeded(cfg: Config, subDomain: string, t: TickInput, a: Attempt) {
    SetIP(cfg, subDomain, a.isV6, a.address, if a.isV6 then t.setV6 else t.setV4).result.Ok?
  }

  /** main.ts:75-78. */
  function WriteV6(cfg: Config, subDomain: string, obs: Addresses, t: TickInput): (run: CycleRun)
    ensures !run.end.LoginRejected?
    ensures |run.attempts| == (if Differs(obs.ipV6, obs.domainIpV6) then 1 else 0)
    ensures forall i :: 0 <= i < |run.attempts| ==>
              && run.attempts[i].isV6 && run.attempts[i].address == obs.ipV6
              && FromSetIP(cfg, subDomain, t, run.attempts[i])
    ensures run.end == Finished <==>
              forall i :: 0 <= i < |run.attempts| ==> SetIPSucceeded(cfg, subDomain, t, run.attempts[i])
    ensures run.end.Raised? ==> |run.attempts| == 1 && RaisedBy(cfg, subDomain, t, run.attempts[0], run.end.exc)
  {
    if Differs(obs.ipV6, obs.domainIpV6) then
      var s := SetIP(cfg, subDomain, true, obs.ipV6, t.setV6);
      var a := Attempt(true, obs.ipV6, s.sent);
      assert SetIPSucceeded(cfg, subDomain, t, a) == s.result.Ok?;
      var run := CycleRun([a], if s.result.Throw? then Raised(s.result.exc) else Finished);
      assert run.attempts[0] == a;
      run
    else CycleRun([], Finished)
  }

  /** The A record was written without a throw: the AAAA step follows it. */
  function AfterV4(cfg: Config, subDomain: string, obs: Addresses, t: TickInput, a: Attempt): (run: CycleRun)
    requires !a.isV6 && a.address == obs.ipV4 && FromSetIP(cfg, subDomain, t, a) && SetIPSucceeded(cfg, subDomain, t, a)
    ensures !run.end.LoginRejected?
    ensures |run.attempts| == (if Differs(obs.ipV6, obs.domainIpV6) then 2 else 1)
    ensures run.attempts[0] == a
    ensures |run.attempts| == 2 ==> run.attempts[1].isV6 && run.attempts[1].address == obs.ipV6
                                    && FromSetIP(cfg, subDomain, t, run.attempts[1])
    ensures run.end == Finished <==>
              forall i :: 0 <= i < |run.attempts| ==> SetIPSucceeded(cfg, subDomain, t, run.attempts[i])
    ensures run.end.Raised? ==>
              |run.attempts| == 2 && RaisedBy(cfg, subDomain, t, run.attempts[1], run.end.exc)
  {
    var rest := WriteV6(cfg, subDomain, obs, t);
    var run := CycleRun([a] + rest.attempts, rest.end);
    assert run.attempts[0] == a;
    assert forall i :: 0 <= i < |rest.attempts| ==> run.attempts[i + 1] == rest.attempts[i];
    run
  }

  /** main.ts:70-78: the A record first, then the AAAA record; a throw ends the block. */
  function WriteBoth(cfg: Config, subDomain: string, obs: Addresses, t: TickInput): (run: CycleRun)
    ensures !run.end.LoginRejected?
    ensures |run.attempts| <= 2
    ensures |run.attempts| == 2 ==> !run.attempts[0].isV6 && run.attempts[1].isV6
    ensures Wrote(run, false) <==> Differs(obs.ipV4, obs.domainIpV4)
    ensures Wrote(run, true) <==>
              && Differs(obs.ipV6, obs.domainIpV6)
              && !(Differs(obs.ipV4, obs.domainIpV4) && SetIP(cfg, subDomain, false, obs.ipV4, t.setV4).result.Throw?)
    ensures forall i :: 0 <= i < |run.attempts| ==>
              && run.attempts[i].address == (if run.attempts[i].isV6 then obs.ipV6 else obs.ipV4)
              && FromSetIP(cfg, subDomain, t, run.attempts[i])
    ensures run.end == Finished <==>
              forall i :: 0 <= i < |run.attempts| ==> SetIPSucceeded(cfg, subDomain, t, run.attempts[i])
    ensures run.end.Raised? ==>
              run.attempts != [] && RaisedBy(cfg, subDomain, t, run.attempts[|run.attempts| - 1], run.end.exc)
  {
    if Differs(obs.ipV4, obs.domainIpV4) then
      var s := SetIP(cfg, subDomain, false, obs.ipV4, t.setV4);
      var a := Attempt(false, obs.ipV4, s.sent);
      assert SetIPSucceeded(cfg, subDomain, t, a) == s.result.Ok?;
      assert FromSetIP(cfg, subDomain, t, a);
      if s.result.Throw? then
        var run := CycleRun([a], Raised(s.result.exc));
        assert run.attempts[0] == a;
        assert RaisedBy(cfg, subDomain, t, a, s.result.exc);
        run
      else AfterV4(cfg, subDomain, obs, t, a)
    else
      var run := WriteV6(cfg, subDomain, obs, t);
      assert Differs(obs.ipV6, obs.domainIpV6) ==> run.attempts[0].isV6;
      run
  }

  /** main.ts:48-78, the `try` block of `update`. The probe and, when it says logged
      out, the login come first on every tick, drift or no drift. */
  function Cycle(cfg: Config, subDomain: string, t: TickInput): (run: CycleRun)
    ensures IsAuthenticated(t.probe).Throw? ==> run == CycleRun([], Raised(IsAuthenticated(t.probe).exc))
    ensures run.end == LoginRejected <==>
              IsAuthenticated(t.probe) == Ok(false) && Login(cfg, t.login).result == Ok(false)
    ensures run.attempts != [] ==> Authorized(cfg, t) && ReadAddresses(cfg, t).Ok?
    ensures |run.attempts| <= 2
    ensures |run.attempts| == 2 ==> !run.attempts[0].isV6 && run.attempts[1].isV6
    ensures Authorized(cfg, t) && ReadAddresses(cfg, t).Ok? ==>
              var obs := ReadAddresses(cfg, t).value;
              && (Wrote(run, false) <==> Differs(obs.ipV4, obs.domainIpV4))
              && (Wrote(run, true) <==>
                    && Differs(obs.ipV6, obs.domainIpV6)
                    && !(Differs(obs.ipV4, obs.domainIpV4)
                         && SetIP(cfg, subDomain, false, obs.ipV4, t.setV4).result.Throw?))
    ensures ReadAddresses(cfg, t).Ok? ==>
              forall i :: 0 <= i < |run.attempts| ==>
                && run.attempts[i].address == (if run.attempts[i].isV6 then ReadAddresses(cfg, t).value.ipV6
                                               else ReadAddresses(cfg, t).value.ipV4)
                && FromSetIP(cfg, subDomain, t, run.attempts[i])
    ensures Authorized(cfg, t) && ReadAddresses(cfg, t).Ok? ==>
              (run.end == Finished <==>
                 forall i :: 0 <= i < |run.attempts| ==> SetIPSucceeded(cfg, subDomain, t, run.attempts[i]))
    ensures Authorized(cfg, t) && ReadAddresses(cfg, t).Throw? ==>
              run == CycleRun([], Raised(ReadAddresses(cfg, t).exc))
    ensures IsAuthenticated(t.probe) == Ok(false) && Login(cfg, t.login).result.Throw? ==>
              run == CycleRun([], Raised(Login(cfg, t.login).result.exc))
    ensures Authorized(cfg, t) && ReadAddresses(cfg, t).Ok? && run.end.Raised? ==>
              run.attempts != [] && RaisedBy(cfg, subDomain, t, run.attempts[|run.attempts| - 1], run.end.exc)
  {
    match IsAuthenticated(t.probe)
    case Throw(exc) => CycleRun([], Raised(exc))
    case Ok(authenticated) =>
      if authenticated then Proceed(cfg, subDomain, t)
      else
        match Login(cfg, t.login).result
        case Throw(exc) => CycleRun([], Raised(exc))
        case Ok(loggedIn) => if loggedIn then Proceed(cfg, subDomain, t) else CycleRun([], LoginRejected)
  }

  /** main.ts:61-78: once logged in, read the addresses and write what differs. */
  function Proceed(cfg: Config, subDomain: string, t: TickInput): (run: CycleRun)
    ensures !run.end.LoginRejected?
    ensures run.attempts != [] ==> ReadAddresses(cfg, t).Ok?
    ensures ReadAddresses(cfg, t).Throw? ==> run == CycleRun([], Raised(ReadAddresses(cfg, t).exc))
    ensures ReadAddresses(cfg, t).Ok? ==> run == WriteBoth(cfg, subDomain, ReadAddresses(cfg, t).value, t)
  {
    match ReadAddresses(cfg, t)
    case Throw(exc) => CycleRun([], Raised(exc))
    case Ok(obs) => WriteBoth(cfg, subDomain, obs, t)
  }

  /** The two module-level variables of main.ts:20-21. */
  datatype TickState = TickState(busy: bool, wait: int)

  /** A tick does its work unless `busy || wait > 0` (main.ts:41). */
  predicate Proceeds(s: TickState)
    ensures Proceeds(s) <==> !(s.busy || s.wait > 0)
  {
    !s.busy && s.wait <= 0
  }

  /** `err.code.includes('TIMEDOUT')` holds, as for ETIMEDOUT and ESOCKETTIMEDOUT. */
  predicate TimedOut(e: Exc)
    ensures TimedOut(e) ==> e.RequestError? || e.LookupError?
    ensures e.RequestError? ==> (TimedOut(e) <==> Includes(e.code, "TIMEDOUT"))
    ensures e.LookupError? ==> (TimedOut(e) <==> e.lookupCode.Some? && Includes(e.lookupCode.value, "TIMEDOUT"))
  {
    CodeOf(e).Some? && Includes(CodeOf(e).value, "TIMEDOUT")
  }

  /** The variables after one tick (main.ts:41-46, 52-53, 79-84). A thrown value without
      a `code` makes the handler's own `err.code.includes` throw, so `busy = false` is
      never reached. */
  function Tick(s: TickState, end: CycleEnd): (next: TickState)
    ensures !Proceeds(s) ==> next == TickState(s.busy, s.wait - 1)
    ensures Proceeds(s) ==> (next.busy <==> end.Raised? && CodeOf(end.exc).None?)
    ensures Proceeds(s) && (end.LoginRejected? || (end.Raised? && TimedOut(end.exc))) ==> next.wait == 5
    ensures Proceeds(s) && !end.LoginRejected? && !(end.Raised? && TimedOut(end.exc)) ==> next.wait == s.wait
  {
    if !Proceeds(s) then TickState(s.busy, s.wait - 1)
    else
      match end
      case Finished => TickState(false, s.wait)
      case LoginRejected => TickState(false, 5)
      case Raised(exc) =>
        match CodeOf(exc)
        case None => TickState(true, s.wait)
        case Some(code) => TickState(false, if Includes(code, "TIMEDOUT") then 5 else s.wait)
  }

  /** The variables after consecutive ticks whose cycles, where they run, end as `ends`. */
  function Run(s: TickState, ends: seq<CycleEnd>): (r: TickState)
    ensures r.wait >= s.wait - |ends|
    ensures s.busy ==> r.busy
    decreases |ends|
  {
    if ends == [] then s else Run(Tick(s, ends[0]), ends[1..])
  }

  /** While `busy` holds every tick only decrements `wait`: it goes below zero and
      keeps falling, and no tick does work again. */
  lemma {:induction false} BusyStaysStuck(s: TickState, ends: seq<CycleEnd>)
    requires s.busy
    ensures Run(s, ends) == TickState(true, s.wait - |ends|)
    decreases |ends|
  {
    if ends != [] {
      BusyStaysStuck(Tick(s, ends[0]), ends[1..]);
    }
  }

  /** With `busy` clear and `wait` at least the number of ticks, each tick only counts down. */
  lemma {:induction false} CountDown(s: TickState, ends: seq<CycleEnd>)
    requires !s.busy && |ends| <= s.wait
    ensures Run(s, ends) == TickState(false, s.wait - |ends|)
    decreases |ends|
  {
    if ends != [] {
      CountDown(Tick(s, ends[0]), ends[1..]);
    }
  }

  /** After a refused login or a timed-out request the next five ticks are skipped and
      the sixth does work again. */
  lemma BackOffFiveTicks(s: TickState, end: CycleEnd, ends: seq<CycleEnd>)
    requires Proceeds(s)
    requires end.LoginRejected? || (end.Raised? && TimedOut(end.exc))
    requires |ends| == 5
    ensures forall k :: 0 <= k < 5 ==> !Proceeds(Run(Tick(s, end), ends[..k]))
    ensures Proceeds(Run(Tick(s, end), ends))
  {
    var after := Tick(s, end);
    forall k | 0 <= k < 5 ensures !Proceeds(Run(after, ends[..k])) {
      CountDown(after, ends[..k]);
    }
    CountDown(after, ends);
  }

  /** A thrown value without a `code` (the strings 'cant get csrf' and 'not authenticated',
      the Error 'domainID undefined', a TypeError) leaves `busy` set for good. */
  lemma CodelessThrowWedges(s: TickState, e: Exc, ends: seq<CycleEnd>)
    requires Proceeds(s) && CodeOf(e).None?
    ensures Run(Tick(s, Raised(e)), ends) == TickState(true, s.wait - |ends|)
    ensures forall k :: 0 <= k <= |ends| ==> !Proceeds(Run(Tick(s, Raised(e)), ends[..k]))
  {
    BusyStaysStuck(Tick(s, Raised(e)), ends);
    forall k | 0 <= k <= |ends| ensures !Proceeds(Run(Tick(s, Raised(e)), ends[..k])) {
      BusyStaysStuck(Tick(s, Raised(e)), ends[..k]);
    }
  }

  /** A refused login ends the tick before any address is read or written: nothing but
      the probe and the login replies matters. */
  lemma LoginRejectedReadsNothing(cfg: Config, subDomain: string, t: TickInput, t': TickInput)
    requires Cycle(cfg, subDomain, t).end == LoginRejected
    requires t'.probe == t.probe && t'.login == t.login
    ensures Cycle(cfg, subDomain, t') == Cycle(cfg, subDomain, t) == CycleRun([], LoginRejected)
  {
  }

  /** Published addresses that already match mean no write. */
  lemma NoDriftNoWrite(cfg: Config, subDomain: string, t: TickInput)
    requires Authorized(cfg, t) && ReadAddresses(cfg, t).Ok?
    requires ReadAddresses(cfg, t).value.domainIpV4 == Some(ReadAddresses(cfg, t).value.ipV4)
    requires ReadAddresses(cfg, t).value.domainIpV6 == Some(ReadAddresses(cfg, t).value.ipV6)
    ensures Cycle(cfg, subDomain, t) == CycleRun([], Finished)
  {
  }

  /** Only the A record drifted: it alone is written, with the desired address. */
  lemma OnlyARecordDrifted(cfg: Config, subDomain: string, t: TickInput)
    requires Authorized(cfg, t)
    requires ReadAddresses(cfg, t) == Ok(Addresses("203.0.113.9", Some("203.0.113.1"), "2001:db8::1", Some("2001:db8::1")))
    ensures |Cycle(cfg, subDomain, t).attempts| == 1
    ensures Cycle(cfg, subDomain, t).attempts[0].isV6 == false
    ensures Cycle(cfg, subDomain, t).attempts[0].address == "203.0.113.9"
  {
  }

  /** The session lapses between the first probe and the record lookup, and logging in
      again succeeds: `getDomainID`'s re-entry throws 'not authenticated', and the tick
      leaves `busy` set. */
  lemma LapsedSessionWedges(cfg: Config, subDomain: string, t: TickInput, s: TickState)
    requires Proceeds(s)
    requires IsAuthenticated(t.probe) == Ok(true) && t.ipV4.Ok?
    requires IsAuthenticated(t.currentV4.probe) == Ok(true)
    requires IsAuthenticated(t.currentV4.domainId.probe) == Ok(false)
    requires Login(cfg, t.currentV4.domainId.login).result == Ok(true)
    ensures Cycle(cfg, subDomain, t).end == Raised(ThrownString("not authenticated"))
    ensures Tick(s, Cycle(cfg, subDomain, t).end).busy
  {
  }

  /** The login form carries no token: `login()` throws 'cant get csrf', which has no
      `code`, and the tick leaves `busy` set. */
  lemma MissingLoginTokenWedges(cfg: Config, subDomain: string, t: TickInput, s: TickState)
    requires Proceeds(s)
    requires IsAuthenticated(t.probe) == Ok(false)
    requires LanguageCsrf(t.login.languagePage).Ok? && t.login.languagePost.Ok? && t.login.loginPage.Ok?
    requires t.login.loginForm in {LoginField(None), LoginField(Some(""))}
    ensures Cycle(cfg, subDomain, t) == CycleRun([], Raised(ThrownString("cant get csrf")))
    ensures Tick(s, Cycle(cfg, subDomain, t).end).busy
  {
  }

  /** The A record drifted but `getDomainID` inside `setIP` resolves `undefined` (logged
      out there, and the login refused): `setIP` throws the Error 'domainID undefined',
      which has no `code`, and the tick leaves `busy` set. */
  lemma UndefinedDomainIdWedges(cfg: Config, subDomain: string, t: TickInput, s: TickState)
    requires Proceeds(s)
    requires IsAuthenticated(t.probe) == Ok(true) && ReadAddresses(cfg, t).Ok?
    requires Differs(ReadAddresses(cfg, t).value.ipV4, ReadAddresses(cfg, t).value.domainIpV4)
    requires IsAuthenticated(t.setV4.domainId.probe) == Ok(false)
    requires Login(cfg, t.setV4.domainId.login).result == Ok(false)
    ensures Cycle(cfg, subDomain, t).end == Raised(ErrorObject("domainID undefined"))
    ensures Tick(s, Cycle(cfg, subDomain, t).end).busy
  {
  }
}
