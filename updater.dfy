/** The updater's module-level state (main.ts:20-25) and its timer callback `update`
    (main.ts:40-85). `setInterval` (main.ts:238) calls `Update` once per tick. */
module UpdaterState {
  import opened JsValues
  import opened JsStrings
  import opened Settings
  import opened DomainName
  import opened Reconcile

  class Updater {
    /** The loaded configuration; its domain name is rewritten in place at start-up. */
    var config: Config
    /** The record's sub-domain label, "" for the bare domain. */
    const subDomain: string
    var busy: bool
    var wait: int

    /** main.ts:20-25: `wait` and `busy` start at 0 and false; the sub-domain is split off
        the configured name, which then keeps only the part after it. */
    constructor (loaded: Config)
      ensures subDomain == SubDomainOf(loaded.domain.name)
      ensures config == loaded.(domain := loaded.domain.(name := BaseNameOf(loaded.domain.name)))
      ensures subDomain != "" ==> subDomain + "." + config.domain.name == loaded.domain.name
      ensures subDomain == "" ==> config == loaded
      ensures !busy && wait == 0
    {
      wait := 0;
      busy := false;
      var sub := SubDomainOf(loaded.domain.name);
      subDomain := sub;
      config := loaded;
      new;
      if sub != "" {
        config := config.(domain := config.domain.(name := config.domain.name[|sub| + 1..]));
        SubDomainIsFirstLabel(loaded.domain.name);
      }
    }

    /** One tick: skip and decrement `wait` while busy or backing off; otherwise run the
        cycle and settle `busy` and `wait` as the early return and the `catch` handler do.
        Returns the `setIP` calls the tick made. */
    method Update(t: TickInput) returns (attempts: seq<Attempt>)
      modifies this`busy, this`wait
      ensures TickState(busy, wait) == Tick(old(TickState(busy, wait)), Cycle(config, subDomain, t).end)
      ensures attempts == if Proceeds(old(TickState(busy, wait))) then Cycle(config, subDomain, t).attempts else []
      ensures !Proceeds(old(TickState(busy, wait))) ==> busy == old(busy) && wait == old(wait) - 1
    {
      if busy || wait > 0 {
        wait := wait - 1;
        return [];
      }
      busy := true;
      var run := Cycle(config, subDomain, t);
      attempts := run.attempts;
      match run.end {
        case LoginRejected =>
          busy := false;
          wait := 5;
        case Finished =>
          busy := false;
        case Raised(exc) =>
          match CodeOf(exc) {
            case None =>
              // reading `.includes` of an undefined `code` throws inside the handler
            case Some(code) =>
              if Includes(code, "TIMEDOUT") {
                wait := 5;
              }
              busy := false;
          }
      }
    }
  }
}
