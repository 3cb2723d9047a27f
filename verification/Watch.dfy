/** The reconnecting event stream (internal/cli/watch.go, internal/wsutil/wsutil.go). */
module Watch {
  import opened Prelude

  /** What the filters read of an event: scope, data and the decoded payloads; an absent field is empty, an absent
      `user_id` key of the data is `None`. */
  datatype Event = Event(
    kind: string, scopeChannel: Id, dataChannel: Id, scopeUser: Id, dataUser: Option<Id>, postUser: Id,
    reactionUser: Id)

  function FirstNonEmpty(a: string, b: string): string { if a != "" then a else b }

  function ChannelID(ev: Event): Id { FirstNonEmpty(ev.scopeChannel, ev.dataChannel) }

  /** The merged data map: the event's own key hides the scope's. */
  function MergedUser(ev: Event): Id { if ev.dataUser.Some? then ev.dataUser.value else ev.scopeUser }

  function ActorID(ev: Event): Id {
    if ev.kind in {"posted", "post_edited", "post_deleted"} then FirstNonEmpty(ev.postUser, MergedUser(ev))
    else if ev.kind in {"reaction_added", "reaction_removed"} then FirstNonEmpty(ev.reactionUser, MergedUser(ev))
    else FirstNonEmpty(ev.scopeUser, if ev.dataUser.Some? then ev.dataUser.value else "")
  }

  /** The flags, who is logged in, when the stream starts, and when the caller cancels it, if ever. */
  datatype Options = Options(
    channels: set<Id>, types: set<string>, limit: int, timeout: int, includeSelf: bool, me: Id, start: int,
    caller: Option<int>)

  predicate Wanted(o: Options, ev: Option<Event>) {
    && ev.Some?
    && (o.types == {} || ev.value.kind in o.types)
    && (o.channels == {} || ChannelID(ev.value) in o.channels)
    && (o.includeSelf || ActorID(ev.value) != o.me)
  }

  /** What wakes the select on a connection, and when. If the stream is cancelled by then, `doneFirst` says which ready
      case the select takes; `Quiet` is a moment at which nothing arrives. */
  datatype Kind = Got(event: Option<Event>, written: bool) | PingTimeout | Quiet
  datatype Signal = Signal(at: int, kind: Kind, doneFirst: bool)

  /** One turn of the reconnect loop: the dial, what the connection brings until its channel is closed, and the end of
      the delay before the next turn. */
  datatype Attempt =
    | DialError(at: int, waitUntil: int)
    | Conn(at: int, signals: seq<Signal>, endAt: int, waitUntil: int)

  datatype Line = Line(at: int, event: Event)

  /** An event that came, and when. */
  datatype Arrival = Arrival(at: int, event: Option<Event>)

  datatype Dial = Opened(i: nat) | Closed(i: nat)

  /** How a connection, and the command, end: `Dropped` is not an end of the command, and it may be still running when
      the attempts told are over. Exit code 4 is `TimedOut`. */
  datatype Verdict = Dropped | LimitReached | Cancelled | TimedOut | WriteError

  datatype Exit = Running | Ended(v: Verdict)

  // ---- specification -----------------------------------------------------------------------------------------

  /** What is to be shown of what came, in order. */
  function Filtered(o: Options, came: seq<Arrival>): seq<Line> {
    if came == [] then []
    else
      var init := came[..|came| - 1];
      var last := came[|came| - 1];
      Filtered(o, init) + if Wanted(o, last.event) then [Line(last.at, last.event.value)] else []
  }

  /** The events a connection brings before it drops, by a clock that stands at `now` when it is up. */
  function EventsOf(now: int, signals: seq<Signal>): seq<Arrival>
    decreases |signals|
  {
    if signals == [] || signals[0].kind.PingTimeout? then []
    else
      var t := Max(now, signals[0].at);
      ArrivalOf(signals[0], t) + EventsOf(t, signals[1..])
  }

  /** The clock when it drops. */
  function DropTime(now: int, signals: seq<Signal>, endAt: int): int
    decreases |signals|
  {
    if signals == [] then Max(now, endAt)
    else
      var t := Max(now, signals[0].at);
      if signals[0].kind.PingTimeout? then t else DropTime(t, signals[1..], endAt)
  }

  function ArrivalOf(s: Signal, t: int): seq<Arrival> { if s.kind.Got? then [Arrival(t, s.kind.event)] else [] }

  function Brings(now: int, a: Attempt): seq<Arrival> { if a.Conn? then EventsOf(now, a.signals) else [] }

  /** The clock when the delay after the last attempt is over. */
  function ClockAfter(o: Options, attempts: seq<Attempt>): int {
    if attempts == [] then o.start
    else
      var a := attempts[|attempts| - 1];
      Max(TurnEnd(Max(ClockAfter(o, attempts[..|attempts| - 1]), a.at), a), a.waitUntil)
  }

  function TurnEnd(now: int, a: Attempt): int { if a.Conn? then DropTime(now, a.signals, a.endAt) else now }

  /** The concatenation of all connections. */
  function Stream(o: Options, attempts: seq<Attempt>): seq<Arrival> {
    if attempts == [] then []
    else
      var init, a := attempts[..|attempts| - 1], attempts[|attempts| - 1];
      Stream(o, init) + Brings(Max(ClockAfter(o, init), a.at), a)
  }

  /** When the idle timer was set for the k-th time: at the start, then at every line. */
  function ArmedAt(o: Options, lines: seq<Line>, k: nat): int
    requires k <= |lines|
  {
    if k == 0 then o.start else lines[k - 1].at
  }

  /** For at least the timeout, up to `now`, nothing was shown. */
  ghost predicate Silent(o: Options, lines: seq<Line>, now: int) {
    exists k :: 0 <= k <= |lines| && ArmedAt(o, lines, k) + o.timeout <= if k < |lines| then lines[k].at else now
  }

  predicate ByCaller(o: Options, now: int) { o.caller.Some? && o.caller.value <= now }

  /** The stream is cancelled, by the caller or by the idle timer. */
  ghost predicate Over(o: Options, lines: seq<Line>, now: int) {
    ByCaller(o, now) || (o.timeout > 0 && Silent(o, lines, now))
  }

  /** The select takes the end of the stream when nothing else is ready, or when it is taken first. */
  predicate Yields(s: Signal) { s.kind.Quiet? || s.doneFirst }

  /** The clock after these signals, none of which drops the connection. */
  function TimeAfter(now: int, signals: seq<Signal>): int {
    if signals == [] then now else Max(TimeAfter(now, signals[..|signals| - 1]), signals[|signals| - 1].at)
  }

  /** And the lines they give. */
  function LinesOf(o: Options, now: int, signals: seq<Signal>): seq<Line> {
    if signals == [] then []
    else LinesOf(o, now, signals[..|signals| - 1]) + LineOf(o, signals[|signals| - 1], TimeAfter(now, signals))
  }

  /** None of them drops it, or finds the stream over and yields to that. */
  ghost predicate Heeds(o: Options, lines: seq<Line>, now: int, signals: seq<Signal>) {
    signals != [] ==>
      var init, s := signals[..|signals| - 1], signals[|signals| - 1];
      && Heeds(o, lines, now, init) && !s.kind.PingTimeout?
      && !(Yields(s) && Over(o, lines + LinesOf(o, now, init), TimeAfter(now, signals)))
  }

  function LineOf(o: Options, s: Signal, t: int): seq<Line> {
    if s.kind.Got? && Wanted(o, s.kind.event) then [Line(t, s.kind.event.value)] else []
  }

  /** The dials of a number of attempts: each connection opened and closed before the next is dialed. */
  function DialLog(attempts: seq<Attempt>): seq<Dial> {
    if attempts == [] then []
    else DialLog(attempts[..|attempts| - 1]) + Dials(attempts[|attempts| - 1], |attempts| - 1)
  }

  function Dials(a: Attempt, i: nat): seq<Dial> { if a.Conn? then [Opened(i), Closed(i)] else [] }

  /** An event to be shown came, and could not be written. */
  predicate Unwritten(o: Options, s: Signal) { s.kind.Got? && Wanted(o, s.kind.event) && !s.kind.written }

  /** So it was on the last of the first `n` attempts. */
  predicate LastWriteFails(o: Options, attempts: seq<Attempt>, n: nat) {
    && 0 < n <= |attempts| && attempts[n - 1].Conn?
    && exists s :: s in attempts[n - 1].signals && Unwritten(o, s)
  }

  /** How a verdict shows in the state it is given in. */
  ghost predicate Explains(o: Options, v: Verdict, lines: seq<Line>, now: int) {
    match v
    case Dropped => o.limit > 0 ==> |lines| < o.limit
    case LimitReached => o.limit > 0 && |lines| == o.limit
    case Cancelled => ByCaller(o, now) && (o.limit > 0 ==> |lines| < o.limit)
    case TimedOut =>
      o.timeout > 0 && Silent(o, lines, now) && !ByCaller(o, now) && (o.limit > 0 ==> |lines| < o.limit)
    case WriteError => o.limit > 0 ==> |lines| < o.limit
  }

  /** What the first `n` attempts gave, all gone through to their ends, after which the stream was not over. */
  ghost predicate Started(o: Options, attempts: seq<Attempt>, n: nat, lines: seq<Line>) {
    && n <= |attempts| && lines == Filtered(o, Stream(o, attempts[..n]))
    && (n > 0 ==> !Over(o, lines, ClockAfter(o, attempts[..n])))
  }

  /** The end came with the last attempt tried, or before the next one; up to there nothing ended it. */
  ghost predicate EndsAt(o: Options, attempts: seq<Attempt>, tried: nat, lines: seq<Line>, now: int) {
    exists k: nat, first :: k <= tried <= k + 1 && EndsAfter(o, attempts, k, first, lines, now)
  }

  ghost predicate EndsAfter(
    o: Options, attempts: seq<Attempt>, k: nat, first: seq<Line>, lines: seq<Line>, now: int)
  {
    && k < |attempts| && first <= lines && Started(o, attempts, k, first)
    && ClockAfter(o, attempts[..k]) <= now <= ClockAfter(o, attempts[..k + 1])
  }

  /** A signal gives the verdict: the end of the stream, where it yields to that, and else what it says itself. */
  ghost predicate EndedBy(o: Options, s: Signal, v: Verdict, before: seq<Line>, now: int) {
    if Yields(s) && Over(o, before, now) then v == if ByCaller(o, now) then Cancelled else TimedOut
    else
      match v
      case Dropped => s.kind.PingTimeout?
      case WriteError => Unwritten(o, s)
      case LimitReached => LineOf(o, s, now) != [] && |before| + 1 == o.limit
      case _ => false
  }

  /** The signal at hand ends the listening, and none before it did. */
  ghost predicate Stops(o: Options, lines: seq<Line>, start: int, signals: seq<Signal>, taken: nat, v: Verdict,
                        now: int)
  {
    && taken < |signals| && Heeds(o, lines, start, signals[..taken])
    && now == Max(TimeAfter(start, signals[..taken]), signals[taken].at)
    && EndedBy(o, signals[taken], v, lines + LinesOf(o, start, signals[..taken]), now)
  }

  /** The first `i` signals went by. */
  ghost predicate WentBy(o: Options, lines: seq<Line>, start: int, signals: seq<Signal>, i: nat, lines': seq<Line>,
                         now: int)
  {
    && i <= |signals| && Heeds(o, lines, start, signals[..i])
    && now == TimeAfter(start, signals[..i]) && lines' == lines + LinesOf(o, start, signals[..i])
  }

  /** What is still to come adds up to the same. */
  ghost predicate Remains(seen: seq<Arrival>, start: int, signals: seq<Signal>, endAt: int, i: nat,
                          seen': seq<Arrival>, now: int)
  {
    && i <= |signals| && start <= now
    && seen' + EventsOf(now, signals[i..]) == seen + EventsOf(start, signals)
    && DropTime(now, signals[i..], endAt) == DropTime(start, signals, endAt)
  }

  /** All that comes was seen, up to the drop; or some of it, before that. */
  ghost predicate SeenBy(v: Verdict, seen: seq<Arrival>, start: int, signals: seq<Signal>, endAt: int,
                         seen': seq<Arrival>, now: int)
  {
    var all, drop := seen + EventsOf(start, signals), DropTime(start, signals, endAt);
    if v.Dropped? then seen' == all && now == drop else seen' <= all && start <= now <= drop
  }

  // ---- the command -------------------------------------------------------------------------------------------

  class Watcher {
    const o: Options
    var now: int
    var deadline: int
    var fired: bool
    var received: nat
    var lines: seq<Line>
    var dials: seq<Dial>
    ghost var seen: seq<Arrival>

    /** The timer has fired exactly when there was a silence as long as the timeout; the lines are what the filters let
        through of what was seen. */
    ghost predicate Valid()
      reads this
    {
      && received == |lines| && lines == Filtered(o, seen)
      && deadline == ArmedAt(o, lines, |lines|) + o.timeout
      && (fired <==> o.timeout > 0 && Silent(o, lines, now))
    }

    constructor (o: Options)
      ensures Valid() && this.o == o && lines == [] && dials == [] && seen == [] && now == o.start
    {
      this.o := o;
      now, deadline, fired := o.start, o.start + o.timeout, false;
      received, lines, dials, seen := 0, [], [], [];
    }

    /** Time passes; the timer may fire. */
    method Pass(at: int)
      requires Valid()
      modifies this`now, this`fired
      ensures Valid() && now == Max(old(now), at)
    {
      ghost var before := now;
      now := Max(now, at);
      if o.timeout > 0 && deadline <= now { fired := true; }
      SilenceGrows(o, lines, before, now);
    }

    ghost predicate Listening()
      reads `lines
    {
      o.limit > 0 ==> |lines| < o.limit
    }

    predicate StreamDone()
      reads this
    {
      fired || ByCaller(o, now)
    }

    /** Separates the timer from the caller, when the stream is cancelled. */
    function Ending(): Verdict
      reads this
    {
      if ByCaller(o, now) then Cancelled else TimedOut
    }

    method Show(ev: Event)
      requires Valid() && Wanted(o, Some(ev))
      modifies this`lines, this`deadline, this`received, this`seen
      ensures Valid() && lines == old(lines) + [Line(now, ev)] && seen == old(seen) + [Arrival(now, Some(ev))]
    {
      SilenceKept(o, lines, now, ev);
      lines := lines + [Line(now, ev)];
      deadline := now + o.timeout;
      received := received + 1;
      seen := seen + [Arrival(now, Some(ev))];
    }

    /** What the select hands over, on a connection that is up; `None` to go on listening. */
    method Receive(s: Signal) returns (v: Option<Verdict>)
      requires Valid() && Listening()
      modifies this`now, this`fired, this`lines, this`deadline, this`received, this`seen
      ensures Valid() && (v.None? ==> Listening()) && (v.Some? ==> Explains(o, v.value, lines, now))
      ensures now == Max(old(now), s.at)
      ensures v.Some? ==> EndedBy(o, s, v.value, old(lines), now)
      ensures v.None? ==> !s.kind.PingTimeout? && !(Yields(s) && Over(o, old(lines), now)) && !Unwritten(o, s)
      ensures if v.None? || v.value.LimitReached?
              then seen == old(seen) + ArrivalOf(s, now) && lines == old(lines) + LineOf(o, s, now)
              else seen == old(seen) && lines == old(lines)
    {
      Pass(s.at);
      if StreamDone() && (s.kind.Quiet? || s.doneFirst) {
        return Some(Ending());
      }
      match s.kind {
        case Quiet => return None;
        case PingTimeout => return Some(Dropped);
        case Got(event, written) =>
          if !Wanted(o, event) {
            seen := seen + [Arrival(now, event)];
            return None;
          }
          if !written { return Some(WriteError); }
          Show(event.value);
          return if o.limit > 0 && received >= o.limit then Some(LimitReached) else None;
      }
    }

    /** One connection, until it drops or the watching is over: `taken` signals went by before that. */
    method Consume(signals: seq<Signal>, endAt: int) returns (v: Verdict, ghost taken: nat)
      requires Valid() && Listening()
      modifies this`now, this`fired, this`lines, this`deadline, this`received, this`seen
      ensures Valid() && Explains(o, v, lines, now) && old(lines) <= lines
      ensures SeenBy(v, old(seen), old(now), signals, endAt, seen, now)
      ensures if taken == |signals| then v.Dropped? && Heeds(o, old(lines), old(now), signals)
              else Stops(o, old(lines), old(now), signals, taken, v, now)
    {
      taken := 0;
      var i := 0;
      while i < |signals|
        invariant 0 <= i == taken <= |signals| && Valid() && Listening()
        invariant Remains(old(seen), old(now), signals, endAt, i, seen, now)
        invariant WentBy(o, old(lines), old(now), signals, i, lines, now)
      {
        ghost var seen', lines', now' := seen, lines, now;
        var r := Receive(signals[i]);
        if r.Some? {
          SeenSome(old(seen), old(now), signals, endAt, i, seen', now', r.value, seen, now);
          return r.value, i;
        }
        OneRemainsLess(old(seen), old(now), signals, endAt, i, seen', now', seen, now);
        OneMoreWentBy(o, old(lines), old(now), signals, i, lines', now', lines, now);
        i, taken := i + 1, taken + 1;
      }
      assert signals[..i] == signals;
      Pass(endAt);
      return Dropped, taken;
    }

    /** So many attempts were gone through to their ends. */
    ghost predicate Told(attempts: seq<Attempt>, n: nat)
      requires n <= |attempts|
      reads this
    {
      seen == Stream(o, attempts[..n]) && dials == DialLog(attempts[..n])
    }

    /** The command ends with a verdict, in the last of so many attempts or before the next. */
    ghost predicate Ends(v: Verdict, attempts: seq<Attempt>, n: nat)
      requires n <= |attempts|
      reads this
    {
      && !v.Dropped? && Explains(o, v, lines, now) && (v.WriteError? ==> LastWriteFails(o, attempts, n))
      && seen <= Stream(o, attempts) && dials == DialLog(attempts[..n])
    }

    /** One turn of the reconnect loop: dials, and when that works listens and closes. */
    method Turn(attempts: seq<Attempt>, i: nat) returns (v: Verdict)
      requires i < |attempts| && Valid() && Listening() && Told(attempts, i)
      requires now == Max(ClockAfter(o, attempts[..i]), attempts[i].at)
      modifies this
      ensures Valid() && old(lines) <= lines && old(now) <= now <= TurnEnd(old(now), attempts[i])
      ensures v.Dropped? ==> now == TurnEnd(old(now), attempts[i])
      ensures if v.Dropped? then Listening() && Told(attempts, i + 1) else Ends(v, attempts, i + 1)
    {
      OneMore(o, attempts, i);
      v := Dropped;
      if attempts[i].Conn? {
        ghost var start, lines', seen' := now, lines, seen;
        dials := dials + [Opened(i)];
        ghost var taken;
        v, taken := Consume(attempts[i].signals, attempts[i].endAt);
        dials := dials + [Closed(i)];
        TurnTold(o, attempts, i, start, lines', seen', v, taken, seen, now);
      }
    }

    /** The context is looked at before each dial, and ends the delay after it. */
    method CheckContext(attempts: seq<Attempt>, i: nat, at: int) returns (v: Verdict)
      requires i <= |attempts| && Valid() && Listening() && Told(attempts, i)
      modifies this`now, this`fired
      ensures Valid() && now == Max(old(now), at) && (v.Dropped? <==> !Over(o, lines, now))
      ensures if v.Dropped? then Listening() && Told(attempts, i) else Ends(v, attempts, i)
    {
      Pass(at);
      StreamGrows(o, attempts, i);
      v := if StreamDone() then Ending() else Dropped;
    }

    /** So many attempts are over, and the watching is not. */
    ghost predicate Between(attempts: seq<Attempt>, n: nat)
      reads this
    {
      && n <= |attempts| && Valid() && Listening() && Told(attempts, n)
      && Started(o, attempts, n, lines) && now == ClockAfter(o, attempts[..n])
    }

    /** One turn, with the looks at the context before and after it. */
    method NextTurn(attempts: seq<Attempt>, i: nat) returns (v: Verdict, tried: nat)
      requires i < |attempts| && Between(attempts, i)
      modifies this
      ensures Valid() && i <= tried <= i + 1 && old(lines) <= lines
      ensures if v.Dropped? then tried == i + 1 && Between(attempts, tried) else Ends(v, attempts, tried)
      ensures ClockAfter(o, attempts[..i]) <= now <= ClockAfter(o, attempts[..i + 1])
    {
      NextClock(o, attempts, i);
      tried := i;
      v := CheckContext(attempts, i, attempts[i].at);
      if v.Dropped? {
        v := Turn(attempts, i);
        tried := i + 1;
        if v.Dropped? {
          v := CheckContext(attempts, tried, attempts[i].waitUntil);
        }
      }
    }

    /** The reconnect loop of `Connections`: looks at the context, dials, listens, closes, waits. */
    method Reconnect(attempts: seq<Attempt>) returns (exit: Exit, tried: nat)
      requires Valid() && lines == [] && seen == [] && dials == [] && now == o.start
      modifies this
      ensures Valid() && tried <= |attempts|
      ensures match exit
              case Running => tried == |attempts| && Between(attempts, tried)
              case Ended(v) => Ends(v, attempts, tried) && EndsAt(o, attempts, tried, lines, now)
    {
      tried := 0;
      while tried < |attempts|
        invariant tried <= |attempts| && Between(attempts, tried)
      {
        ghost var k, first := tried, lines;
        var v;
        v, tried := NextTurn(attempts, tried);
        if !v.Dropped? {
          assert EndsAfter(o, attempts, k, first, lines, now);
          return Ended(v), tried;
        }
      }
      exit := Running;
    }

    /** The command: shows the filtered concatenation of all connections, or the first lines of it, each as it comes. It
        goes on exactly as long as it is not over. */
    method RunWatch(attempts: seq<Attempt>) returns (exit: Exit, tried: nat)
      requires Valid() && lines == [] && seen == [] && dials == [] && now == o.start
      modifies this
      ensures Valid() && tried <= |attempts| && dials == DialLog(attempts[..tried])
      ensures lines <= Filtered(o, Stream(o, attempts))
      ensures exit.Running? ==> tried == |attempts| && Started(o, attempts, tried, lines) && Listening()
      ensures exit.Running? ==> now == ClockAfter(o, attempts)
      ensures exit.Ended? ==> !exit.v.Dropped? && Explains(o, exit.v, lines, now)
      ensures exit.Ended? ==> EndsAt(o, attempts, tried, lines, now)
      ensures exit == Ended(WriteError) ==> LastWriteFails(o, attempts, tried)
    {
      exit, tried := Reconnect(attempts);
      assert attempts[..|attempts|] == attempts;
      FilteredPrefix(o, seen, Stream(o, attempts));
    }
  }

  // ---- lemmas ------------------------------------------------------------------------------------------------

  lemma SilenceGrows(o: Options, lines: seq<Line>, before: int, now: int)
    requires before <= now
    ensures Silent(o, lines, now) <==> Silent(o, lines, before) || ArmedAt(o, lines, |lines|) + o.timeout <= now
  {
    var n := |lines|;
    if Silent(o, lines, before) {
      var k :| 0 <= k <= n && ArmedAt(o, lines, k) + o.timeout <= if k < n then lines[k].at else before;
      assert ArmedAt(o, lines, k) + o.timeout <= if k < n then lines[k].at else now;
    }
    if ArmedAt(o, lines, n) + o.timeout <= now {
      assert n <= |lines|;
    }
  }

  /** A line ends the silence before it, and begins another. */
  lemma SilenceKept(o: Options, lines: seq<Line>, now: int, ev: Event)
    ensures var more := lines + [Line(now, ev)];
            o.timeout > 0 ==> (Silent(o, more, now) <==> Silent(o, lines, now))
  {
    var more := lines + [Line(now, ev)];
    var n := |lines|;
    forall k | 0 <= k <= n ensures ArmedAt(o, more, k) == ArmedAt(o, lines, k) {}
    forall k | 0 <= k <= n
      ensures (if k < |more| then more[k].at else now) == if k < n then lines[k].at else now
    {
    }
    if Silent(o, lines, now) {
      var k :| 0 <= k <= n && ArmedAt(o, lines, k) + o.timeout <= if k < n then lines[k].at else now;
      assert ArmedAt(o, more, k) + o.timeout <= if k < |more| then more[k].at else now;
    }
    if o.timeout > 0 && Silent(o, more, now) {
      var k :| 0 <= k <= |more| && ArmedAt(o, more, k) + o.timeout <= if k < |more| then more[k].at else now;
      assert k <= n;
      assert ArmedAt(o, lines, k) + o.timeout <= if k < n then lines[k].at else now;
    }
  }

  lemma {:induction false} FilteredPrefix(o: Options, a: seq<Arrival>, b: seq<Arrival>)
    requires a <= b
    ensures Filtered(o, a) <= Filtered(o, b)
    decreases |b|
  {
    if |a| < |b| {
      FilteredPrefix(o, a, b[..|b| - 1]);
    } else {
      assert a == b;
    }
  }

  /** Who caused an event: the user of its post or reaction. Where that is missing the event's own key counts before the
      scope, and on events of other kinds the scope before the key. */
  predicate CausedBy(ev: Event, actor: Id) {
    var post := ev.kind == "posted" || ev.kind == "post_edited" || ev.kind == "post_deleted";
    var reaction := ev.kind == "reaction_added" || ev.kind == "reaction_removed";
    var payload := if post then ev.postUser else if reaction then ev.reactionUser else ev.scopeUser;
    && (payload != "" ==> actor == payload)
    && (payload == "" && ev.dataUser.Some? ==> actor == ev.dataUser.value)
    && (payload == "" && ev.dataUser.None? ==> actor == if post || reaction then ev.scopeUser else "")
  }

  predicate InChannel(ev: Event, channel: Id) {
    (ev.scopeChannel != "" ==> channel == ev.scopeChannel) && (ev.scopeChannel == "" ==> channel == ev.dataChannel)
  }

  /** The kind, the channel and who caused an event decide whether it is filtered out. */
  predicate Hidden(o: Options, kind: string, channel: Id, actor: Id) {
    || (o.types != {} && kind !in o.types)
    || (o.channels != {} && channel !in o.channels)
    || (!o.includeSelf && actor == o.me)
  }

  lemma ActorCaused(ev: Event, actor: Id)
    requires CausedBy(ev, actor)
    ensures actor == ActorID(ev)
  {
  }

  lemma WantedIff(o: Options, ev: Event, channel: Id, actor: Id)
    requires InChannel(ev, channel) && CausedBy(ev, actor)
    ensures Wanted(o, Some(ev)) <==> !Hidden(o, ev.kind, channel, actor)
  {
    ActorCaused(ev, actor);
  }

  /** An event is shown as often as it comes, at the times it comes, unless it is filtered out. */
  lemma {:induction false} FilteredCounts(o: Options, came: seq<Arrival>, at: int, ev: Event, channel: Id, actor: Id)
    requires InChannel(ev, channel) && CausedBy(ev, actor)
    ensures multiset(Filtered(o, came))[Line(at, ev)] ==
            if Hidden(o, ev.kind, channel, actor) then 0 else multiset(came)[Arrival(at, Some(ev))]
  {
    if came != [] {
      FilteredCounts(o, came[..|came| - 1], at, ev, channel, actor);
      WantedIff(o, ev, channel, actor);
      OneMoreFiltered(o, came, at, ev);
    }
  }

  lemma OneMoreFiltered(o: Options, came: seq<Arrival>, at: int, ev: Event)
    requires came != []
    ensures var init, last := came[..|came| - 1], came[|came| - 1];
      && multiset(came)[Arrival(at, Some(ev))] ==
         multiset(init)[Arrival(at, Some(ev))] + (if last == Arrival(at, Some(ev)) then 1 else 0)
      && multiset(Filtered(o, came))[Line(at, ev)] ==
         multiset(Filtered(o, init))[Line(at, ev)] +
         if last == Arrival(at, Some(ev)) && Wanted(o, Some(ev)) then 1 else 0
  {
    assert came == came[..|came| - 1] + [came[|came| - 1]];
  }

  lemma {:induction false} DropsLater(now: int, signals: seq<Signal>, endAt: int)
    ensures now <= DropTime(now, signals, endAt)
    decreases |signals|
  {
    if signals != [] {
      DropsLater(Max(now, signals[0].at), signals[1..], endAt);
    }
  }

  lemma OneRemainsLess(seen: seq<Arrival>, start: int, signals: seq<Signal>, endAt: int, i: nat,
                       seen': seq<Arrival>, now': int, seen'': seq<Arrival>, now'': int)
    requires Remains(seen, start, signals, endAt, i, seen', now') && i < |signals| && !signals[i].kind.PingTimeout?
    requires now'' == Max(now', signals[i].at) && seen'' == seen' + ArrivalOf(signals[i], now'')
    ensures Remains(seen, start, signals, endAt, i + 1, seen'', now'')
  {
    assert signals[i..][1..] == signals[i + 1..];
    assert EventsOf(now', signals[i..]) == ArrivalOf(signals[i], now'') + EventsOf(now'', signals[i + 1..]);
  }

  lemma SeenSome(seen: seq<Arrival>, start: int, signals: seq<Signal>, endAt: int, i: nat,
                 seen': seq<Arrival>, now': int, v: Verdict, seen'': seq<Arrival>, now'': int)
    requires Remains(seen, start, signals, endAt, i, seen', now') && i < |signals| && now'' == Max(now', signals[i].at)
    requires if v.Dropped? then signals[i].kind.PingTimeout? && seen'' == seen'
             else seen'' == seen' || (signals[i].kind.Got? && seen'' == seen' + ArrivalOf(signals[i], now''))
    ensures SeenBy(v, seen, start, signals, endAt, seen'', now'')
  {
    assert signals[i..][1..] == signals[i + 1..];
    DropsLater(now'', signals[i + 1..], endAt);
  }

  lemma OneMoreWentBy(o: Options, lines: seq<Line>, start: int, signals: seq<Signal>, i: nat, lines': seq<Line>,
                      now': int, lines'': seq<Line>, now'': int)
    requires WentBy(o, lines, start, signals, i, lines', now') && i < |signals| && !signals[i].kind.PingTimeout?
    requires now'' == Max(now', signals[i].at) && !(Yields(signals[i]) && Over(o, lines', now''))
    requires lines'' == lines' + LineOf(o, signals[i], now'')
    ensures WentBy(o, lines, start, signals, i + 1, lines'', now'')
  {
    assert signals[..i + 1][..i] == signals[..i];
  }

  lemma TurnTold(o: Options, attempts: seq<Attempt>, i: nat, start: int, lines: seq<Line>, seen: seq<Arrival>,
                 v: Verdict, taken: nat, seen': seq<Arrival>, now: int)
    requires i < |attempts| && attempts[i].Conn? && seen == Stream(o, attempts[..i])
    requires start == Max(ClockAfter(o, attempts[..i]), attempts[i].at)
    requires SeenBy(v, seen, start, attempts[i].signals, attempts[i].endAt, seen', now)
    requires taken < |attempts[i].signals| ==> Stops(o, lines, start, attempts[i].signals, taken, v, now)
    requires taken >= |attempts[i].signals| ==> v.Dropped?
    ensures start <= now <= TurnEnd(start, attempts[i])
    ensures if v.Dropped? then seen' == Stream(o, attempts[..i + 1]) && now == TurnEnd(start, attempts[i])
            else seen' <= Stream(o, attempts)
    ensures v.WriteError? ==> LastWriteFails(o, attempts, i + 1)
  {
    OneMore(o, attempts, i);
    DropsLater(start, attempts[i].signals, attempts[i].endAt);
    if v.WriteError? {
      assert attempts[i].signals[taken] in attempts[i].signals && Unwritten(o, attempts[i].signals[taken]);
    }
  }

  /** The connection stayed up until then. */
  ghost predicate Up(signals: seq<Signal>, j: nat)
    requires j <= |signals|
  {
    forall k :: 0 <= k < j ==> !signals[k].kind.PingTimeout?
  }

  /** Nothing that came of the connection is later than `t`. */
  ghost predicate HeardBy(signals: seq<Signal>, endAt: int, t: int) {
    && (forall j :: 0 <= j < |signals| && Up(signals, j) ==> signals[j].at <= t)
    && (Up(signals, |signals|) ==> endAt <= t)
  }

  ghost predicate ToldBy(a: Attempt, t: int) {
    a.at <= t && a.waitUntil <= t && (a.Conn? ==> HeardBy(a.signals, a.endAt, t))
  }

  /** The clock is at the latest of all that was told. */
  lemma {:induction false} ClockIsLatest(o: Options, attempts: seq<Attempt>, t: int)
    ensures ClockAfter(o, attempts) <= t <==> o.start <= t && forall a :: a in attempts ==> ToldBy(a, t)
  {
    if attempts != [] {
      var init, a := attempts[..|attempts| - 1], attempts[|attempts| - 1];
      ClockIsLatest(o, init, t);
      TurnIsLatest(ClockAfter(o, init), a, t);
      assert attempts == init + [a];
    }
  }

  lemma TurnIsLatest(now: int, a: Attempt, t: int)
    ensures Max(TurnEnd(Max(now, a.at), a), a.waitUntil) <= t <==> now <= t && ToldBy(a, t)
  {
    if a.Conn? {
      DropIsLatest(Max(now, a.at), a.signals, a.endAt, t);
    }
  }

  lemma {:induction false} DropIsLatest(now: int, signals: seq<Signal>, endAt: int, t: int)
    ensures DropTime(now, signals, endAt) <= t <==> now <= t && HeardBy(signals, endAt, t)
    decreases |signals|
  {
    if signals != [] {
      var s, rest := signals[0], signals[1..];
      DropIsLatest(Max(now, s.at), rest, endAt, t);
      assert Up(signals, 0);
      if !s.kind.PingTimeout? {
        HeardLonger(signals, endAt, t);
      } else {
        assert forall j :: 0 < j <= |signals| ==> !Up(signals, j);
      }
    }
  }

  lemma UpLonger(signals: seq<Signal>, j: nat)
    requires j < |signals| && !signals[0].kind.PingTimeout?
    ensures Up(signals, j + 1) <==> Up(signals[1..], j)
  {
    if Up(signals, j + 1) {
      assert forall k :: 0 <= k < j ==> signals[1..][k] == signals[k + 1];
    }
    if Up(signals[1..], j) {
      forall k | 0 <= k < j + 1 ensures !signals[k].kind.PingTimeout? {
        assert k > 0 ==> signals[k] == signals[1..][k - 1];
      }
    }
  }

  lemma HeardLonger(signals: seq<Signal>, endAt: int, t: int)
    requires signals != [] && !signals[0].kind.PingTimeout?
    ensures HeardBy(signals, endAt, t) <==> signals[0].at <= t && HeardBy(signals[1..], endAt, t)
  {
    var rest := signals[1..];
    UpLonger(signals, |rest|);
    assert Up(signals, 0);
    if HeardBy(signals, endAt, t) {
      forall j | 0 <= j < |rest| && Up(rest, j) ensures rest[j].at <= t {
        UpLonger(signals, j);
        assert rest[j] == signals[j + 1];
      }
    }
    if signals[0].at <= t && HeardBy(rest, endAt, t) {
      forall j | 0 <= j < |signals| && Up(signals, j) ensures signals[j].at <= t {
        if j > 0 {
          UpLonger(signals, j - 1);
          assert signals[j] == rest[j - 1];
        }
      }
    }
  }

  lemma NextClock(o: Options, attempts: seq<Attempt>, n: nat)
    requires n < |attempts|
    ensures var a := attempts[n];
      ClockAfter(o, attempts[..n + 1]) == Max(TurnEnd(Max(ClockAfter(o, attempts[..n]), a.at), a), a.waitUntil)
    ensures var at := Max(ClockAfter(o, attempts[..n]), attempts[n].at); at <= TurnEnd(at, attempts[n])
  {
    assert attempts[..n + 1][..n] == attempts[..n];
    var a := attempts[n];
    if a.Conn? {
      DropsLater(Max(ClockAfter(o, attempts[..n]), a.at), a.signals, a.endAt);
    }
  }

  lemma OneMore(o: Options, attempts: seq<Attempt>, n: nat)
    requires n < |attempts|
    ensures var a, now := attempts[n], Max(ClockAfter(o, attempts[..n]), attempts[n].at);
            Stream(o, attempts[..n + 1]) == Stream(o, attempts[..n]) + Brings(now, a)
    ensures DialLog(attempts[..n + 1]) ==
            if attempts[n].Conn? then DialLog(attempts[..n]) + [Opened(n)] + [Closed(n)] else DialLog(attempts[..n])
    ensures Stream(o, attempts[..n + 1]) <= Stream(o, attempts)
  {
    assert attempts[..n + 1][..n] == attempts[..n];
    StreamGrows(o, attempts, n + 1);
  }

  /** The stream begins with what the first attempts bring. */
  lemma {:induction false} StreamGrows(o: Options, attempts: seq<Attempt>, n: nat)
    requires n <= |attempts|
    ensures Stream(o, attempts[..n]) <= Stream(o, attempts)
    decreases |attempts| - n
  {
    if n < |attempts| {
      assert attempts[..n + 1][..n] == attempts[..n];
      StreamGrows(o, attempts, n + 1);
    } else {
      assert attempts[..n] == attempts;
    }
  }

  function OpenCount(log: seq<Dial>): int {
    if log == [] then 0
    else OpenCount(log[..|log| - 1]) + if log[|log| - 1].Opened? then 1 else -1
  }

  /** At any moment at most one connection is open, and after any number of attempts none is. */
  lemma {:induction false} OneConnectionAtATime(attempts: seq<Attempt>, n: nat)
    requires n <= |DialLog(attempts)|
    ensures 0 <= OpenCount(DialLog(attempts)[..n]) <= 1 && OpenCount(DialLog(attempts)) == 0
  {
    if attempts != [] {
      var i := |attempts| - 1;
      var log := DialLog(attempts[..i]);
      OneConnectionAtATime(attempts[..i], Min(n, |log|));
      OneTurnMore(log, attempts[i], i, n);
    }
  }

  lemma OneTurnMore(log: seq<Dial>, a: Attempt, i: nat, n: nat)
    requires OpenCount(log) == 0 && n <= |log + Dials(a, i)| && 0 <= OpenCount(log[..Min(n, |log|)]) <= 1
    ensures 0 <= OpenCount((log + Dials(a, i))[..n]) <= 1 && OpenCount(log + Dials(a, i)) == 0
  {
    var more := log + Dials(a, i);
    assert a.Conn? ==> more == log + [Opened(i)] + [Closed(i)];
    assert !a.Conn? ==> more == log;
    assert n <= |log| ==> more[..n] == log[..n];
    assert n == |log| + 1 ==> more[..n] == log + [Opened(i)];
    assert n == |more| ==> more[..n] == more;
  }

  /** Each connection is dialed once, and closed once, next. */
  lemma {:induction false} ClosedOnceAndNext(attempts: seq<Attempt>, k: nat)
    requires k < |DialLog(attempts)| && DialLog(attempts)[k].Opened?
    ensures var log := DialLog(attempts);
            k + 1 < |log| && log[k + 1] == Closed(log[k].i) && log[k].i < |attempts| &&
            forall j :: 0 <= j < |log| && j != k && j != k + 1 ==> log[j].i != log[k].i
  {
    var init := attempts[..|attempts| - 1];
    var log := DialLog(init);
    IndicesBelow(init);
    if k < |log| {
      ClosedOnceAndNext(init, k);
    }
  }

  lemma {:induction false} IndicesBelow(attempts: seq<Attempt>)
    ensures forall j :: 0 <= j < |DialLog(attempts)| ==> DialLog(attempts)[j].i < |attempts|
  {
    if attempts != [] {
      IndicesBelow(attempts[..|attempts| - 1]);
    }
  }
}
