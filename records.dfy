/** The portal's DNS data: the domain-id lookup (main.ts:113-124), the A and AAAA record
    lookups (main.ts:192-222) and the record write (main.ts:151-190, 224-231). */
module Records {
  import opened JsValues
  import opened Settings
  import opened Tokens
  import opened Session

  /** An entry of the `data` array of /pfapi/domain-list. */
  datatype DomainEntry = DomainEntry(domain: string, id: int)

  /** An entry of the `A` or `AAAA` array of /pfapi/dns/domain/{id}/records. */
  datatype DnsRecord = DnsRecord(domain: string, address: string, id: int)

  /** The `data` object of /pfapi/dns/domain/{id}/records. */
  datatype RecordSets = RecordSets(a: seq<DnsRecord>, aaaa: seq<DnsRecord>)

  function RecordsOfType(sets: RecordSets, isV6: bool): seq<DnsRecord> {
    if isV6 then sets.aaaa else sets.a
  }

  /** The scan behind `Array.prototype.find`: the first position from `from` on whose
      element satisfies `p`. */
  function FindIndex<T>(xs: seq<T>, p: T -> bool, from: nat): (r: Option<nat>)
    requires from <= |xs|
    ensures r.Some? ==> from <= r.value < |xs| && p(xs[r.value])
    ensures r.Some? ==> forall j :: from <= j < r.value ==> !p(xs[j])
    ensures r.None? ==> forall j :: from <= j < |xs| ==> !p(xs[j])
    decreases |xs| - from
  {
    if from == |xs| then None
    else if p(xs[from]) then Some(from)
    else FindIndex(xs, p, from + 1)
  }

  /** `i` is the first position whose element satisfies `p`. */
  ghost predicate IsFirst<T>(xs: seq<T>, p: T -> bool, i: int) {
    0 <= i < |xs| && p(xs[i]) && forall j :: 0 <= j < i ==> !p(xs[j])
  }

  /** `xs.find(p)`: the first element satisfying `p`, `None` for `undefined`. */
  function Find<T>(xs: seq<T>, p: T -> bool): (r: Option<T>)
    ensures r.Some? ==> exists i :: IsFirst(xs, p, i) && xs[i] == r.value
    ensures r.None? <==> forall j :: 0 <= j < |xs| ==> !p(xs[j])
  {
    match FindIndex(xs, p, 0)
    case Some(i) => assert IsFirst(xs, p, i); Some(xs[i])
    case None => None
  }

  /** The callback of main.ts:123: the entry for the domain `name`. */
  function EntryNamed(name: string): DomainEntry -> bool {
    (e: DomainEntry) => e.domain == name
  }

  /** The callbacks of main.ts:197 and 205: the record for the domain `name`. */
  function RecordNamed(name: string): DnsRecord -> bool {
    (rec: DnsRecord) => rec.domain == name
  }

  /** The replies `getDomainID` awaits: the portfolio probe, the login sequence (when
      logged out) and the domain list (when logged in). */
  datatype DomainIdReplies = DomainIdReplies(probe: Res<string>, login: LoginReplies, list: Res<seq<DomainEntry>>)

  /** main.ts:113-124. `fail` is the re-entry flag: the call made after a successful
      login passes true and throws at once. The list is searched for `configName`
      (config.domain.name), not for the `domain` argument; an empty search makes `.id`
      read `undefined` and throw. */
  function GetDomainId(cfg: Config, domain: string, fail: bool, r: DomainIdReplies): (res: Res<Option<int>>)
    ensures fail ==> res == Throw(ThrownString("not authenticated"))
    ensures !fail && IsAuthenticated(r.probe) == Ok(false) && Login(cfg, r.login).result == Ok(true) ==>
              res == Throw(ThrownString("not authenticated"))
    ensures !fail && IsAuthenticated(r.probe) == Ok(false) && Login(cfg, r.login).result == Ok(false) ==>
              res == Ok(None)
    ensures res.Ok? && res.value.None? ==>
              IsAuthenticated(r.probe) == Ok(false) && Login(cfg, r.login).result == Ok(false)
    ensures res.Ok? && res.value.Some? ==>
              && IsAuthenticated(r.probe) == Ok(true) && r.list.Ok?
              && exists i :: IsFirst(r.list.value, EntryNamed(cfg.domain.name), i) && r.list.value[i].id == res.value.value
    ensures !fail && IsAuthenticated(r.probe) == Ok(true) && r.list.Ok?
            && (forall j :: 0 <= j < |r.list.value| ==> r.list.value[j].domain != cfg.domain.name) ==>
              res == Throw(TypeError)
    ensures !fail && IsAuthenticated(r.probe) == Ok(true) && r.list.Ok?
            && (exists i :: IsFirst(r.list.value, EntryNamed(cfg.domain.name), i)) ==>
              res.Ok? && res.value.Some?
    ensures !fail && IsAuthenticated(r.probe).Throw? ==> res == Throw(IsAuthenticated(r.probe).exc)
    ensures !fail && IsAuthenticated(r.probe) == Ok(false) && Login(cfg, r.login).result.Throw? ==>
              res == Throw(Login(cfg, r.login).result.exc)
    ensures !fail && IsAuthenticated(r.probe) == Ok(true) && r.list.Throw? ==> res == Throw(r.list.exc)
    decreases if fail then 0 else 1
  {
    if fail then Throw(ThrownString("not authenticated"))
    else
      match IsAuthenticated(r.probe)
      case Throw(exc) => Throw(exc)
      case Ok(authenticated) =>
        if !authenticated then
          match Login(cfg, r.login).result
          case Throw(exc) => Throw(exc)
          case Ok(loggedIn) => if loggedIn then GetDomainId(cfg, domain, true, r) else Ok(None)
        else
          match r.list
          case Throw(exc) => Throw(exc)
          case Ok(entries) =>
            match Find(entries, EntryNamed(cfg.domain.name))
            case None => Throw(TypeError)
            case Some(entry) => Ok(Some(entry.id))
  }

  /** The replies `getDomainRecordIPV4`/`IPV6` await: the probe, the domain-id lookup
      whose result goes into the records URL, and the records themselves. */
  datatype RecordReplies = RecordReplies(probe: Res<string>, domainId: DomainIdReplies, records: Res<RecordSets>)

  /** main.ts:192-206: the first A (or AAAA) record whose `domain` is `domain`. When the
      probe says logged out, `console.error` is returned: `undefined`. An undefined
      domain id does not stop the lookup; the URL then reads ".../domain/undefined/...". */
  function GetDomainRecord(cfg: Config, domain: string, isV6: bool, r: RecordReplies): (res: Res<Option<DnsRecord>>)
    ensures IsAuthenticated(r.probe) == Ok(false) ==> res == Ok(None)
    ensures res.Ok? && res.value.Some? ==>
              && IsAuthenticated(r.probe) == Ok(true) && r.records.Ok?
              && exists i :: IsFirst(RecordsOfType(r.records.value, isV6), RecordNamed(domain), i)
                             && RecordsOfType(r.records.value, isV6)[i] == res.value.value
    ensures IsAuthenticated(r.probe) == Ok(true) && GetDomainId(cfg, domain, false, r.domainId).Throw? ==>
              res == Throw(GetDomainId(cfg, domain, false, r.domainId).exc)
    ensures IsAuthenticated(r.probe) == Ok(true) && GetDomainId(cfg, domain, false, r.domainId).Ok? && r.records.Ok? ==>
              && res.Ok?
              && (res.value.None? <==> forall j :: 0 <= j < |RecordsOfType(r.records.value, isV6)| ==>
                                                  RecordsOfType(r.records.value, isV6)[j].domain != domain)
    ensures IsAuthenticated(r.probe).Throw? ==> res == Throw(IsAuthenticated(r.probe).exc)
    ensures IsAuthenticated(r.probe) == Ok(true) && GetDomainId(cfg, domain, false, r.domainId).Ok? && r.records.Throw? ==>
              res == Throw(r.records.exc)
  {
    match IsAuthenticated(r.probe)
    case Throw(exc) => Throw(exc)
    case Ok(authenticated) =>
      if !authenticated then Ok(None)
      else
        match GetDomainId(cfg, domain, false, r.domainId)
        case Throw(exc) => Throw(exc)
        case Ok(_) =>
          match r.records
          case Throw(exc) => Throw(exc)
          case Ok(sets) => Ok(Find(RecordsOfType(sets, isV6), RecordNamed(domain)))
  }

  /** main.ts:208-214: the `address` of the record found, `undefined` when none. */
  function CurrentAddress(found: Res<Option<DnsRecord>>): (r: Res<Option<string>>)
    ensures found.Throw? ==> r == Throw(found.exc)
    ensures found.Ok? ==> r.Ok? && (r.value.Some? <==> found.value.Some?)
    ensures r.Ok? && r.value.Some? ==> r.value.value == found.value.value.address
  {
    match found
    case Throw(exc) => Throw(exc)
    case Ok(None) => Ok(None)
    case Ok(Some(rec)) => Ok(Some(rec.address))
  }

  /** main.ts:156, `getCurrentIPV…RecordId(domain) || null`: the found record's id, with
      an absent record and the falsy id 0 both giving `null`. */
  function ExistingId(found: Option<DnsRecord>): (id: Option<int>)
    ensures id.Some? <==> found.Some? && found.value.id != 0
    ensures id.Some? ==> id.value == found.value.id
  {
    match found
    case Some(rec) => if rec.id != 0 then Some(rec.id) else None
    case None => None
  }

  datatype RecordType = A | AAAA

  /** The JSON body of the record write (main.ts:158-175): the `record` object and the
      `domain_lock_state` flags. */
  datatype Payload = Payload(
    address: string,
    filterValue: string,
    ttl: int,
    recordType: RecordType,
    standardValue: bool,
    subDomain: string,
    domain: string,
    id: Option<int>,
    webspace: bool,
    formId: Option<int>,
    domainLocked: bool,
    emailLocked: bool)

  /** The PUT to /pfapi/dns/domain/{domainId}/records with its token header and body. */
  datatype PutRequest = PutRequest(domainId: int, csrfToken: string, payload: Payload)

  /** The replies `setIP` awaits: the domain-id lookup, the record lookup for the
      existing id, the front page for the write token, and the PUT's status code. */
  datatype SetReplies = SetReplies(domainId: DomainIdReplies, record: RecordReplies, csrfPage: Res<string>, put: Res<int>)

  /** The PUT `setIP` sent, if it got that far, and what it settles with. */
  datatype SetRun = SetRun(sent: Option<PutRequest>, result: Res<()>)

  /** main.ts:151-190: write `ip` into the A record, or the AAAA record when `isV6`.
      `domain` is config.domain.name at both call sites (main.ts:72, 77). */
  function SetIP(cfg: Config, subDomain: string, isV6: bool, ip: string, r: SetReplies): (run: SetRun)
    ensures GetDomainId(cfg, cfg.domain.name, false, r.domainId) == Ok(None) ==>
              run == SetRun(None, Throw(ErrorObject("domainID undefined")))
    ensures run.sent.Some? ==>
              var put := run.sent.value;
              && GetDomainId(cfg, cfg.domain.name, false, r.domainId) == Ok(Some(put.domainId))
              && GetDomainRecord(cfg, cfg.domain.name, isV6, r.record).Ok?
              && LanguageCsrf(r.csrfPage) == Ok(put.csrfToken)
    ensures run.sent.Some? ==>
              var p := run.sent.value.payload;
              && p.address == ip
              && (p.recordType == AAAA <==> isV6)
              && p.subDomain == subDomain
              && p.domain == cfg.domain.name && p.filterValue == cfg.domain.name
              && p.ttl == cfg.domain.ttl
              && p.id == p.formId == ExistingId(GetDomainRecord(cfg, cfg.domain.name, isV6, r.record).value)
              && !p.standardValue && !p.webspace && !p.domainLocked && !p.emailLocked
    ensures run.sent.Some? ==> run.result == (if r.put.Ok? then Ok(()) else Throw(r.put.exc))
    ensures run.sent.None? ==> run.result.Throw?
    ensures GetDomainId(cfg, cfg.domain.name, false, r.domainId).Throw? ==>
              run == SetRun(None, Throw(GetDomainId(cfg, cfg.domain.name, false, r.domainId).exc))
    ensures GetDomainId(cfg, cfg.domain.name, false, r.domainId).Ok?
            && GetDomainId(cfg, cfg.domain.name, false, r.domainId).value.Some? ==>
              && (GetDomainRecord(cfg, cfg.domain.name, isV6, r.record).Throw? ==>
                    run == SetRun(None, Throw(GetDomainRecord(cfg, cfg.domain.name, isV6, r.record).exc)))
              && (GetDomainRecord(cfg, cfg.domain.name, isV6, r.record).Ok? && LanguageCsrf(r.csrfPage).Throw? ==>
                    run == SetRun(None, Throw(LanguageCsrf(r.csrfPage).exc)))
              && (GetDomainRecord(cfg, cfg.domain.name, isV6, r.record).Ok? && LanguageCsrf(r.csrfPage).Ok? ==>
                    run.sent.Some?)
  {
    match GetDomainId(cfg, cfg.domain.name, false, r.domainId)
    case Throw(exc) => SetRun(None, Throw(exc))
    case Ok(None) => SetRun(None, Throw(ErrorObject("domainID undefined")))
    case Ok(Some(domainId)) =>
      match GetDomainRecord(cfg, cfg.domain.name, isV6, r.record)
      case Throw(exc) => SetRun(None, Throw(exc))
      case Ok(found) =>
        var id := ExistingId(found);
        var payload := Payload(ip, cfg.domain.name, cfg.domain.ttl, if isV6 then AAAA else A, false,
                               subDomain, cfg.domain.name, id, false, id, false, false);
        match LanguageCsrf(r.csrfPage)
        case Throw(exc) => SetRun(None, Throw(exc))
        case Ok(token) =>
          var put := PutRequest(domainId, token, payload);
          match r.put
          case Throw(exc) => SetRun(Some(put), Throw(exc))
          case Ok(status) => SetRun(Some(put), Ok(()))  // a status other than 200 is only logged
  }
}
