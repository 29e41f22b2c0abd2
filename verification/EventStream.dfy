/** A run's event log read while it grows: the server's stream, which reads the status and then a
    page while other operations go on in between, and the client that reconnects to it. */
module EventStream {
  import opened Domain
  import opened Transitions
  import opened Database
  import opened Invariants
  import opened Lifecycle
  import opened ServerSentEvents
  import opened Text

  const MAX_PAGE := 500
  const EVENT_POLL_SECONDS: Time := 0.5
  const EVENT_KEEPALIVE_SECONDS: Time := 15.0

  // ---------------------------------------------------------------- a log that grows, then freezes

  lemma StepGrowsLog(db: Db, a: Action, id: string)
    requires DbInv(db) && id in db.runs && id in Next(db, a).runs
    ensures db.Log(id) <= Next(db, a).Log(id)
    ensures db.runs[id].status.Final() ==> Next(db, a).Log(id) == db.Log(id) && Next(db, a).runs[id].status.Final()
  {
    if db.runs[id].status.Final() {
      EndedIsFrozen(db, a, id);
    } else if a.step.Append? && a.step.id == id {
      AppendedGrows(db.Log(id), a.step.events);
    } else {
      OtherStepsKeepLog(db, a, id);
    }
  }

  lemma OtherStepsKeepLog(db: Db, a: Action, id: string)
    requires id in db.runs && id in Next(db, a).runs && !(a.step.Append? && a.step.id == id)
    ensures Next(db, a).Log(id) == db.Log(id)
  {
  }

  /** Within a life the log only grows; once the run has ended it is what it will ever be. */
  lemma {:induction false} LogGrows(trace: seq<Action>, id: string, i: nat, j: nat)
    requires i <= j <= |trace| && Alive(trace, id, i, j)
    ensures After(trace, i).Log(id) <= After(trace, j).Log(id)
    ensures After(trace, i).runs[id].status.Final() ==>
      After(trace, j).Log(id) == After(trace, i).Log(id) && After(trace, j).runs[id].status.Final()
    decreases j
  {
    hide Next;
    if i < j {
      LogGrows(trace, id, i, j - 1);
      Reachable(trace, j - 1);
      assert id in After(trace, j - 1).runs && id in After(trace, j).runs;
      StepGrowsLog(After(trace, j - 1), trace[j - 1], id);
    }
  }

  // ---------------------------------------------------------------- one page

  /** The entries past a position, in order. */
  function Past(log: seq<LogEntry>, after: nat): seq<LogEntry> {
    if log == [] then []
    else
      var rest := Past(log[..|log| - 1], after);
      if log[|log| - 1].position > after then rest + [log[|log| - 1]] else rest
  }

  function Page(log: seq<LogEntry>, after: nat, limit: nat): seq<LogEntry> {
    var past := Past(log, after);
    if |past| <= limit then past else past[..limit]
  }

  /** The entries between two positions. */
  function Slice(log: seq<LogEntry>, from: nat, to: nat): seq<LogEntry> {
    if from <= to <= |log| then log[from..to] else []
  }

  lemma {:induction false} PastIsTail(log: seq<LogEntry>, after: nat)
    requires LogInv(log)
    ensures Past(log, after) == if after <= |log| then log[after..] else []
  {
    if log != [] {
      var most, last := log[..|log| - 1], log[|log| - 1];
      PastIsTail(most, after);
      assert last.position == |log|;
      if after < |log| {
        assert log[after..] == most[after..] + [last];
      }
    }
  }

  // ---------------------------------------------------------------- the stream

  datatype Frame = EventFrame(entry: LogEntry) | EndFrame(status: Status) | Keepalive

  /** One round of the stream: how far the trace has come when the status is read, and when the
      page is; and whether the stream is cut after it (its time is over, or nobody listens). */
  datatype Round = Round(statusAt: nat, pageAt: nat, cut: bool)

  predicate RoundsOf(trace: seq<Action>, since: nat, rounds: seq<Round>) {
    forall i :: 0 <= i < |rounds| ==> since <= rounds[i].statusAt <= rounds[i].pageAt <= |trace|
  }

  /** The run is not purged from `since` on; its id may have been used and purged before. */
  ghost predicate OneLife(trace: seq<Action>, id: string, since: nat) {
    forall k :: since <= k <= |trace| && id in After(trace, k).runs ==> Alive(trace, id, k, |trace|)
  }

  /** Everything logged, in the end, in the run's present life. */
  function FullLog(trace: seq<Action>, id: string): seq<LogEntry> {
    After(trace, |trace|).Log(id)
  }

  /** The entries a stretch of frames carries. */
  function Sent(frames: seq<Frame>): seq<LogEntry> {
    if frames == [] then []
    else Sent(frames[..|frames| - 1]) + if frames[|frames| - 1].EventFrame? then [frames[|frames| - 1].entry] else []
  }

  /** The frames so far: the log from the start position to where it has come, without gap or
      repeat; an end only as the last frame, and only once there is nothing left to send. */
  ghost predicate Faithful(full: seq<LogEntry>, start: nat, after: nat, frames: seq<Frame>) {
    && start <= after
    && (start < after ==> after <= |full|)
    && Sent(frames) == Slice(full, start, after)
    && (forall i :: 0 <= i < |frames| && frames[i].EndFrame? ==> i == |frames| - 1 && |full| <= after)
  }

  ghost predicate Ended(frames: seq<Frame>) {
    frames != [] && frames[|frames| - 1].EndFrame?
  }

  lemma PageOfPrefix(log: seq<LogEntry>, full: seq<LogEntry>, after: nat)
    requires LogInv(log) && log <= full
    ensures
      var page := Page(log, after, MAX_PAGE);
      && (page != [] ==> after + |page| <= |full|)
      && page == Slice(full, after, after + |page|)
      && (|page| < MAX_PAGE ==> |log| <= after + |page|)
  {
    PastIsTail(log, after);
  }

  /** What is logged at any time is a prefix of all that is logged. */
  lemma PrefixOfFull(trace: seq<Action>, id: string, since: nat, at: nat)
    requires since <= at <= |trace| && OneLife(trace, id, since)
    ensures LogInv(After(trace, at).Log(id)) && LogInv(FullLog(trace, id))
    ensures After(trace, at).Log(id) <= FullLog(trace, id)
  {
    hide Next;
    Reachable(trace, at);
    Reachable(trace, |trace|);
    if id in After(trace, at).runs {
      LogGrows(trace, id, at, |trace|);
    }
  }

  lemma {:induction false} PastIsPast(log: seq<LogEntry>, after: nat)
    ensures forall i :: 0 <= i < |Past(log, after)| ==> Past(log, after)[i].position > after
  {
    if log != [] {
      PastIsPast(log[..|log| - 1], after);
    }
  }

  /** A status read as final, and then a page: the page is of the log as it will stay. */
  lemma FinalBeforePage(trace: seq<Action>, id: string, since: nat, statusAt: nat, pageAt: nat)
    requires since <= statusAt <= pageAt <= |trace| && OneLife(trace, id, since)
    requires id in After(trace, statusAt).runs && After(trace, statusAt).runs[id].status.Final()
    ensures After(trace, pageAt).Log(id) == FullLog(trace, id)
  {
    hide Next;
    assert Alive(trace, id, statusAt, |trace|);
    assert Alive(trace, id, statusAt, pageAt);
    LogGrows(trace, id, statusAt, pageAt);
    LogGrows(trace, id, statusAt, |trace|);
  }

  lemma SentPage(frames: seq<Frame>, page: seq<LogEntry>, n: nat)
    requires n < |page|
    ensures Sent(frames + [EventFrame(page[n])]) == Sent(frames) + [page[n]]
  {
    var longer := frames + [EventFrame(page[n])];
    assert longer[..|longer| - 1] == frames;
  }

  lemma SentNothing(frames: seq<Frame>, frame: Frame)
    requires !frame.EventFrame?
    ensures Sent(frames + [frame]) == Sent(frames)
  {
    var longer := frames + [frame];
    assert longer[..|longer| - 1] == frames;
  }

  function AsFrames(entries: seq<LogEntry>): seq<Frame> {
    seq(|entries|, i requires 0 <= i < |entries| => EventFrame(entries[i]))
  }

  /** Where a page takes the stream. */
  function Reached(after: nat, log: seq<LogEntry>, limit: nat): nat {
    var entries := Page(log, after, limit);
    PastIsPast(log, after);
    if entries == [] then after else entries[|entries| - 1].position
  }

  /** What the server sends from a position on, read by read: a page, then again at once when it was
      full, else the end when the status read before it was final, else after a pause. `quiet` is how
      long nothing has been sent. */
  function Followed(trace: seq<Action>, id: string, after: nat, quiet: Time, rounds: seq<Round>): seq<Frame>
    requires RoundsOf(trace, 0, rounds)
    decreases |rounds|
  {
    if rounds == [] || id !in After(trace, rounds[0].statusAt).runs then []
    else
      var status, log := After(trace, rounds[0].statusAt).runs[id].status, After(trace, rounds[0].pageAt).Log(id);
      var entries, next := Page(log, after, MAX_PAGE), Reached(after, log, MAX_PAGE);
      if |entries| == MAX_PAGE then AsFrames(entries) + Followed(trace, id, next, quiet, rounds[1..])
      else if status.Final() then AsFrames(entries) + [EndFrame(status)]
      else if rounds[0].cut then AsFrames(entries)
      else
        var silent := if entries != [] then 0.0 else quiet + EVENT_POLL_SECONDS;
        if silent >= EVENT_KEEPALIVE_SECONDS
        then AsFrames(entries) + [Keepalive] + Followed(trace, id, next, 0.0, rounds[1..])
        else AsFrames(entries) + Followed(trace, id, next, silent, rounds[1..])
  }

  /** The frames so far, and what the reads still to come add. */
  ghost predicate OnTrack(trace: seq<Action>, id: string, start: nat, rounds: seq<Round>,
                          frames: seq<Frame>, after: nat, quiet: Time, i: nat)
    requires RoundsOf(trace, 0, rounds) && i <= |rounds|
  {
    Followed(trace, id, start, 0.0, rounds) == frames + Followed(trace, id, after, quiet, rounds[i..])
  }

  /** The server's stream, and how far it came; a run that is gone breaks it off. From a moment on from
      which the run is not purged, however appends and endings fall between its reads, what it sends
      is faithful: `end` comes only after every event past the start. */
  method Follow(trace: seq<Action>, id: string, ghost since: nat, start: nat, rounds: seq<Round>) returns (frames: seq<Frame>, after: nat)
    requires since <= |trace| && RoundsOf(trace, since, rounds)
    ensures frames == Followed(trace, id, start, 0.0, rounds)
    ensures OneLife(trace, id, since) ==> Faithful(FullLog(trace, id), start, after, frames)
  {
    hide Next, After, OneLife, Faithful, Ended, FullLog, Page, Past, AsFrames, Followed, Reached;
    after := start;
    frames := [];
    var quiet: Time := 0.0;
    ghost var whole, full := OneLife(trace, id, since), FullLog(trace, id);
    NothingSentYet(full, start);
    assert [] + Followed(trace, id, start, 0.0, rounds) == Followed(trace, id, start, 0.0, rounds[0..]) by {
      assert rounds[0..] == rounds;
    }
    for i := 0 to |rounds|
      invariant whole ==> Faithful(full, start, after, frames) && !Ended(frames)
      invariant OnTrack(trace, id, start, rounds, frames, after, quiet, i)
    {
      var round := rounds[i];
      OneRound(trace, id, after, quiet, rounds, i);
      if id !in After(trace, round.statusAt).runs {
        assert frames + [] == frames;
        return;
      }
      var status := After(trace, round.statusAt).runs[id].status;
      var log := After(trace, round.pageAt).Log(id);
      var entries := Page(log, after, MAX_PAGE);
      PositionsGrow(log, after);
      ghost var from, before := after, frames;
      if whole {
        PrefixOfFull(trace, id, since, round.pageAt);
        PageOfPrefix(log, full, after);
      }
      NoFrames(entries);
      for n := 0 to |entries|
        invariant whole ==> Faithful(full, start, after, frames) && !Ended(frames) && after == from + n
        invariant after == if n == 0 then from else entries[n - 1].position
        invariant frames == before + AsFrames(entries[..n])
      {
        if whole {
          NextEntry(full, start, from, entries, n, frames);
        }
        OneFrameMore(entries, n, before);
        after := entries[n].position;
        frames := frames + [EventFrame(entries[n])];
      }
      assert entries[..|entries|] == entries;
      assert after == Reached(from, log, MAX_PAGE);
      if |entries| == MAX_PAGE {
        Associates(before, AsFrames(entries), [], Followed(trace, id, after, quiet, rounds[i + 1..]));
        continue;
      }
      if status.Final() {
        if whole {
          FinalBeforePage(trace, id, since, round.statusAt, round.pageAt);
          LastFrame(full, start, after, frames, status);
        }
        Associates(before, AsFrames(entries), [EndFrame(status)], []);
        frames := frames + [EndFrame(status)];
        return;
      }
      if round.cut {
        return;
      }
      quiet := if entries != [] then 0.0 else quiet + EVENT_POLL_SECONDS;
      if quiet >= EVENT_KEEPALIVE_SECONDS {
        quiet := 0.0;
        if whole {
          OneKeepalive(full, start, after, frames);
        }
        Associates(before, AsFrames(entries), [Keepalive], Followed(trace, id, after, quiet, rounds[i + 1..]));
        frames := frames + [Keepalive];
      } else {
        Associates(before, AsFrames(entries), [], Followed(trace, id, after, quiet, rounds[i + 1..]));
      }
    }
    NoRounds(trace, id, after, quiet, rounds);
    assert frames + [] == frames;
  }

  lemma PositionsGrow(log: seq<LogEntry>, after: nat)
    ensures
      var entries := Page(log, after, MAX_PAGE);
      && |entries| <= MAX_PAGE
      && (forall i :: 0 <= i < |entries| ==> entries[i].position > after)
      && Reached(after, log, MAX_PAGE) == if entries == [] then after else entries[|entries| - 1].position
  {
    PastIsPast(log, after);
  }

  lemma Associates(a: seq<Frame>, b: seq<Frame>, c: seq<Frame>, d: seq<Frame>)
    ensures a + b + c == a + (b + c) && a + (b + c + d) == a + b + c + d && a + (b + d) == a + b + d && a + b + [] == a + b
    ensures c == [] ==> a + b + c == a + b
  {
  }

  lemma NoFrames(entries: seq<LogEntry>)
    ensures AsFrames(entries[..0]) == []
  {
  }

  lemma OneFrameMore(entries: seq<LogEntry>, n: nat, before: seq<Frame>)
    requires n < |entries|
    ensures before + AsFrames(entries[..n]) + [EventFrame(entries[n])] == before + AsFrames(entries[..n + 1])
  {
    assert AsFrames(entries[..n + 1]) == AsFrames(entries[..n]) + [EventFrame(entries[n])];
  }

  lemma OneRound(trace: seq<Action>, id: string, after: nat, quiet: Time, rounds: seq<Round>, i: nat)
    requires RoundsOf(trace, 0, rounds) && i < |rounds|
    ensures
      var round, rest, now := rounds[i], rounds[i + 1..], Followed(trace, id, after, quiet, rounds[i..]);
      if id !in After(trace, round.statusAt).runs then now == []
      else
        var status, log := After(trace, round.statusAt).runs[id].status, After(trace, round.pageAt).Log(id);
        var entries, next := Page(log, after, MAX_PAGE), Reached(after, log, MAX_PAGE);
        var silent := if entries != [] then 0.0 else quiet + EVENT_POLL_SECONDS;
        now ==
          if |entries| == MAX_PAGE then AsFrames(entries) + Followed(trace, id, next, quiet, rest)
          else if status.Final() then AsFrames(entries) + [EndFrame(status)]
          else if round.cut then AsFrames(entries)
          else if silent >= EVENT_KEEPALIVE_SECONDS
          then AsFrames(entries) + [Keepalive] + Followed(trace, id, next, 0.0, rest)
          else AsFrames(entries) + Followed(trace, id, next, silent, rest)
  {
    hide Next, Page, AsFrames, Reached;
    assert rounds[i..][1..] == rounds[i + 1..] && rounds[i..][0] == rounds[i];
  }

  lemma NoRounds(trace: seq<Action>, id: string, after: nat, quiet: Time, rounds: seq<Round>)
    requires RoundsOf(trace, 0, rounds)
    ensures Followed(trace, id, after, quiet, rounds[|rounds|..]) == []
  {
  }

  lemma NothingSentYet(full: seq<LogEntry>, start: nat)
    ensures Faithful(full, start, start, []) && !Ended([])
  {
  }

  lemma LastFrame(full: seq<LogEntry>, start: nat, after: nat, frames: seq<Frame>, status: Status)
    requires Faithful(full, start, after, frames) && !Ended(frames) && |full| <= after
    ensures Faithful(full, start, after, frames + [EndFrame(status)])
  {
    SentNothing(frames, EndFrame(status));
  }

  lemma OneKeepalive(full: seq<LogEntry>, start: nat, after: nat, frames: seq<Frame>)
    requires Faithful(full, start, after, frames) && !Ended(frames)
    ensures Faithful(full, start, after, frames + [Keepalive]) && !Ended(frames + [Keepalive])
  {
    SentNothing(frames, Keepalive);
  }

  lemma NextEntry(full: seq<LogEntry>, start: nat, from: nat, page: seq<LogEntry>, n: nat, frames: seq<Frame>)
    requires LogInv(full) && n < |page| && from + |page| <= |full| && page == Slice(full, from, from + |page|)
    requires Faithful(full, start, from + n, frames) && !Ended(frames)
    ensures page[n].position == from + n + 1
    ensures Faithful(full, start, from + n + 1, frames + [EventFrame(page[n])]) && !Ended(frames + [EventFrame(page[n])])
  {
    hide Sent;
    SentPage(frames, page, n);
    var longer := frames + [EventFrame(page[n])];
    assert longer[|frames|] == EventFrame(page[n]) && forall i :: 0 <= i < |frames| ==> longer[i] == frames[i];
    assert page[n] == full[from + n];
    assert full[start..from + n] + [full[from + n]] == full[start..from + n + 1];
  }

  // ---------------------------------------------------------------- the client

  /** How an entry is printed and read: its event's type and its JSON text, and a status's text. */
  datatype Codec = Codec(name: LogEntry -> string, text: LogEntry -> string, parse: string -> Option<LogEntry>,
                         ending: Status -> string)

  /** What is asked of it: JSON reads back, is not empty, and no type is called `end`. */
  ghost predicate Sound(codec: Codec) {
    && (forall e :: codec.parse(codec.text(e)) == Some(e) && codec.text(e) != "")
    && (forall e :: codec.name(e) != "end" && Unbroken(codec.name(e), PythonBreak))
    && (forall status :: codec.ending(status) != "" && Unbroken(codec.ending(status), PythonBreak))
  }

  function WireOf(codec: Codec, frame: Frame): Wire {
    match frame
    case EventFrame(e) => Message(Some(if e.position >= 0 then e.position else 0), codec.name(e), codec.text(e))
    case EndFrame(status) => Message(None, "end", codec.ending(status))
    case Keepalive => Comment
  }

  function WiresOf(codec: Codec, frames: seq<Frame>): (wires: seq<Wire>)
    ensures |wires| == |frames| && forall i :: 0 <= i < |frames| ==> wires[i] == WireOf(codec, frames[i])
  {
    seq(|frames|, i requires 0 <= i < |frames| => WireOf(codec, frames[i]))
  }

  /** Each event goes out under its own position, for a client that resumes by it. */
  lemma EventCarriesItsPosition(codec: Codec, e: LogEntry)
    requires e.position >= 0
    ensures
      var lines := Lines(Printed(WireOf(codec, EventFrame(e))), PythonBreak);
      lines != [] && lines[0] == "id: " + Decimal(e.position)
  {
    hide Lines, Printed, Decimal;
    BothAreLineBreaks();
    PositionLine(e.position, codec.name(e), codec.text(e), PythonBreak);
  }

  /** One connection of the client's: the server's rounds, how many characters of what it prints
      arrive, and whether it was dropped or came to a clean end. */
  datatype Connection = Connection(rounds: seq<Round>, arrives: nat, dropped: bool)

  /** How the client's iteration ends: the run's `end` came, too many failures in a row, an event that
      is not the JSON of an entry, or it is still open when the connections given are used up. */
  datatype Outcome = Finished | Unreachable | Undecodable | Open

  /** What the client takes from the events of one connection, and whether it is then done. */
  function Consumed(codec: Codec, events: seq<(string, string)>): (seq<LogEntry>, Option<Outcome>)
    decreases |events|
  {
    if events == [] then ([], None)
    else if events[0].0 == "end" then ([], Some(Finished))
    else if codec.parse(events[0].1).None? || codec.parse(events[0].1).value.position < 0 then ([], Some(Undecodable))
    else
      var (entries, stop) := Consumed(codec, events[1..]);
      ([codec.parse(events[0].1).value] + entries, stop)
  }

  method Consume(codec: Codec, events: seq<(string, string)>) returns (entries: seq<LogEntry>, stop: Option<Outcome>)
    ensures (entries, stop) == Consumed(codec, events)
    ensures forall i :: 0 <= i < |entries| ==> entries[i].position >= 0
    ensures stop.None? || stop == Some(Finished) || stop == Some(Undecodable)
  {
    entries, stop := [], None;
    assert events[0..] == events && [] + Consumed(codec, events).0 == Consumed(codec, events).0;
    for n := 0 to |events|
      invariant stop.None?
      invariant forall i :: 0 <= i < |entries| ==> entries[i].position >= 0
      invariant Consumed(codec, events) == (entries + Consumed(codec, events[n..]).0, Consumed(codec, events[n..]).1)
    {
      var (name, data) := events[n];
      assert entries + [] == entries;
      assert events[n..][0] == events[n] && events[n..][1..] == events[n + 1..];
      if name == "end" {
        stop := Some(Finished);
        return;
      }
      var entry := codec.parse(data);
      if entry.None? || entry.value.position < 0 {
        stop := Some(Undecodable);
        return;
      }
      assert entries + ([entry.value] + Consumed(codec, events[n + 1..]).0) == entries + [entry.value] + Consumed(codec, events[n + 1..]).0;
      entries := entries + [entry.value];
    }
    assert events[|events|..] == [] && entries + [] == entries;
  }

  // ---------------------------------------------------------------- from frames to what is taken

  /** The frames but the comments. */
  function Carried(frames: seq<Frame>): seq<Frame> {
    if frames == [] then [] else (if frames[0].Keepalive? then [] else [frames[0]]) + Carried(frames[1..])
  }

  function PairOf(codec: Codec, frame: Frame): (string, string) {
    match frame
    case EventFrame(e) => (codec.name(e), codec.text(e))
    case EndFrame(status) => ("end", codec.ending(status))
    case Keepalive => ("", "")
  }

  function Pairs(codec: Codec, frames: seq<Frame>): seq<(string, string)> {
    if frames == [] then [] else [PairOf(codec, frames[0])] + Pairs(codec, frames[1..])
  }

  lemma {:induction false} EventsOfFrames(codec: Codec, frames: seq<Frame>)
    ensures EventsOf(WiresOf(codec, frames)) == Pairs(codec, Carried(frames))
    decreases |frames|
  {
    if frames != [] {
      EventsOfFrames(codec, frames[1..]);
      assert WiresOf(codec, frames)[1..] == WiresOf(codec, frames[1..]);
      var carried := Carried(frames[1..]);
      if !frames[0].Keepalive? {
        assert ([frames[0]] + carried)[1..] == carried;
      } else {
        assert [] + carried == carried;
      }
    }
  }

  lemma {:induction false} PairsPrefix(codec: Codec, frames: seq<Frame>, m: nat)
    requires m <= |Pairs(codec, frames)|
    ensures m <= |frames| && Pairs(codec, frames)[..m] == Pairs(codec, frames[..m])
    decreases |frames|
  {
    if frames != [] && m > 0 {
      PairsPrefix(codec, frames[1..], m - 1);
      assert frames[..m][1..] == frames[1..][..m - 1];
      assert Pairs(codec, frames)[..m] == [PairOf(codec, frames[0])] + Pairs(codec, frames[1..])[..m - 1];
    }
  }

  lemma {:induction false} SentFirst(frames: seq<Frame>)
    requires frames != []
    ensures Sent(frames) == (if frames[0].EventFrame? then [frames[0].entry] else []) + Sent(frames[1..])
    decreases |frames|
  {
    var first, rest := frames[0], frames[1..];
    var head := if first.EventFrame? then [first.entry] else [];
    if rest == [] {
      assert frames[..0] == [] && Sent(frames) == [] + head && head + Sent(rest) == head;
    } else {
      var last, most := frames[|frames| - 1], frames[..|frames| - 1];
      var tail := if last.EventFrame? then [last.entry] else [];
      SentFirst(most);
      assert most[1..] == rest[..|rest| - 1] && rest[|rest| - 1] == last && most[0] == first;
      assert head + Sent(most[1..]) + tail == head + (Sent(most[1..]) + tail);
    }
  }

  lemma {:induction false} CarriedSendsTheSame(frames: seq<Frame>)
    ensures Sent(Carried(frames)) == Sent(frames)
    ensures forall i :: 0 <= i < |Carried(frames)| ==> Carried(frames)[i] in frames && !Carried(frames)[i].Keepalive?
    decreases |frames|
  {
    if frames != [] {
      CarriedSendsTheSame(frames[1..]);
      SentFirst(frames);
      var carried := Carried(frames[1..]);
      if !frames[0].Keepalive? {
        SentFirst([frames[0]] + carried);
        assert ([frames[0]] + carried)[1..] == carried;
      } else {
        assert [] + carried == carried;
      }
    }
  }

  /** An end only as the last frame. */
  ghost predicate EndsOnce(frames: seq<Frame>) {
    forall i :: 0 <= i < |frames| - 1 ==> !frames[i].EndFrame?
  }

  lemma {:induction false} CarriedEndsOnce(frames: seq<Frame>)
    requires EndsOnce(frames)
    ensures EndsOnce(Carried(frames))
    decreases |frames|
  {
    if |frames| > 1 {
      assert EndsOnce(frames[1..]) by {
        forall i | 0 <= i < |frames[1..]| - 1 ensures !frames[1..][i].EndFrame? {
          assert frames[1..][i] == frames[i + 1];
        }
      }
      CarriedEndsOnce(frames[1..]);
    }
  }

  /** Frames whose every entry is an entry of the log, each printed on one line. */
  ghost predicate Legible(codec: Codec, frames: seq<Frame>) {
    forall i :: 0 <= i < |frames| && frames[i].EventFrame? ==>
      frames[i].entry.position >= 0 && Unbroken(codec.text(frames[i].entry), PythonBreak)
  }

  /** From frames as they come, the client takes the entries sent, and is done exactly at an end. */
  lemma {:induction false} TakesWhatIsSent(codec: Codec, frames: seq<Frame>)
    requires Sound(codec) && Legible(codec, frames) && EndsOnce(frames)
    requires forall i :: 0 <= i < |frames| ==> !frames[i].Keepalive?
    ensures Consumed(codec, Pairs(codec, frames)) == (Sent(frames), if Ended(frames) then Some(Finished) else None)
    decreases |frames|
  {
    if frames != [] {
      var rest, pairs := frames[1..], Pairs(codec, frames);
      assert forall i :: 0 <= i < |rest| ==> rest[i] == frames[i + 1];
      assert EndsOnce(rest);
      TakesWhatIsSent(codec, rest);
      SentFirst(frames);
      assert pairs[0] == PairOf(codec, frames[0]) && pairs[1..] == Pairs(codec, rest);
      if frames[0].EndFrame? {
        assert rest == [];
        assert [] + Sent(rest) == [];
      }
    }
  }

  lemma WiresAreOneLine(codec: Codec, frames: seq<Frame>)
    requires Sound(codec) && Legible(codec, frames)
    ensures forall i :: 0 <= i < |frames| ==> OneLine(WiresOf(codec, frames)[i], PythonBreak)
  {
    assert Unbroken("end", PythonBreak);
  }

  lemma {:induction false} EntriesAreSent(frames: seq<Frame>, i: nat)
    requires i < |frames| && frames[i].EventFrame?
    ensures frames[i].entry in Sent(frames)
  {
    if i < |frames| - 1 {
      EntriesAreSent(frames[..|frames| - 1], i);
    }
  }

  lemma LegibleKept(codec: Codec, frames: seq<Frame>, m: nat)
    requires Legible(codec, frames) && EndsOnce(frames) && m <= |Carried(frames)|
    ensures Legible(codec, Carried(frames)[..m]) && EndsOnce(Carried(frames)[..m])
    ensures forall i :: 0 <= i < m ==> !Carried(frames)[..m][i].Keepalive?
  {
    hide Carried, Sent, Unbroken;
    CarriedSendsTheSame(frames);
    CarriedEndsOnce(frames);
    forall i | 0 <= i < m && Carried(frames)[i].EventFrame?
      ensures Carried(frames)[i].entry.position >= 0 && Unbroken(codec.text(Carried(frames)[i].entry), PythonBreak)
    {
      var k :| 0 <= k < |frames| && frames[k] == Carried(frames)[i];
    }
  }

  /** What the client takes from a connection that breaks off anywhere. */
  function Heard(codec: Codec, frames: seq<Frame>, arrives: nat): (seq<LogEntry>, Option<Outcome>) {
    var text := PrintedAll(WiresOf(codec, frames));
    Consumed(codec, EventsRead(if arrives <= |text| then text[..arrives] else text, PythonBreak))
  }

  lemma HearsFirstFrames(codec: Codec, frames: seq<Frame>, arrives: nat) returns (m: nat)
    requires Sound(codec) && Legible(codec, frames) && EndsOnce(frames)
    ensures m <= |Carried(frames)|
    ensures
      var some := Carried(frames)[..m];
      Heard(codec, frames, arrives) == (Sent(some), if Ended(some) then Some(Finished) else None)
  {
    hide PrintedAll, TakeLines, Lines, Carried, Consumed, Sent, OneLine, Legible, Sound;
    var wires := WiresOf(codec, frames);
    var text := PrintedAll(wires);
    var n := if arrives <= |text| then arrives else |text|;
    assert text[..n] == if arrives <= |text| then text[..arrives] else text;
    WiresAreOneLine(codec, frames);
    BothAreLineBreaks();
    m := FirstEventsArrive(wires, n, PythonBreak, []);
    EventsOfFrames(codec, frames);
    assert [] + EventsOf(wires)[..m] == EventsOf(wires)[..m];
    PairsPrefix(codec, Carried(frames), m);
    LegibleKept(codec, frames, m);
    TakesWhatIsSent(codec, Carried(frames)[..m]);
  }

  lemma {:induction false} SentPrefix(frames: seq<Frame>, n: nat)
    requires n <= |frames|
    ensures Sent(frames[..n]) <= Sent(frames)
  {
    if n < |frames| {
      var shorter := frames[..|frames| - 1];
      SentPrefix(shorter, n);
      assert shorter[..n] == frames[..n];
    } else {
      assert frames[..n] == frames;
    }
  }

  /** What the client has: the log from its start, without gap or repeat. */
  ghost predicate Received(full: seq<LogEntry>, start: nat, after: nat, yielded: seq<LogEntry>) {
    && after == start + |yielded|
    && (yielded != [] ==> after <= |full|)
    && yielded == Slice(full, start, after)
  }

  lemma ReceivedMore(full: seq<LogEntry>, start: nat, from: nat, already: seq<LogEntry>, more: seq<LogEntry>)
    requires Received(full, start, from, already) && more != []
    requires from + |more| <= |full| && more == full[from..from + |more|]
    ensures Received(full, start, from + |more|, already + more)
  {
    assert already == full[start..from];
    assert full[start..from] + full[from..from + |more|] == full[start..from + |more|];
  }

  lemma FaithfulEndsOnce(full: seq<LogEntry>, from: nat, to: nat, frames: seq<Frame>)
    requires Faithful(full, from, to, frames)
    ensures EndsOnce(frames) && (Ended(frames) ==> |full| <= to)
  {
  }

  lemma AnEndIsTheLast(frames: seq<Frame>, m: nat)
    requires EndsOnce(frames) && m <= |Carried(frames)| && Ended(Carried(frames)[..m])
    ensures Ended(frames) && Sent(Carried(frames)[..m]) == Sent(frames)
  {
    var carried := Carried(frames);
    CarriedSendsTheSame(frames);
    CarriedEndsOnce(frames);
    var end := carried[m - 1];
    assert m == |carried|;
    assert carried[..m] == carried;
    var k :| 0 <= k < |frames| && frames[k] == end;
  }

  /** A connection opened where the client had come to, breaking off anywhere: the client has the log
      from its start still, and if it saw the end, all of it. */
  lemma HearsTheLog(codec: Codec, full: seq<LogEntry>, start: nat, from: nat, to: nat, frames: seq<Frame>, arrives: nat, already: seq<LogEntry>)
    requires Sound(codec) && LogInv(full) && Legible(codec, frames)
    requires Faithful(full, from, to, frames) && Received(full, start, from, already)
    ensures
      var (entries, stop) := Heard(codec, frames, arrives);
      && Received(full, start, from + |entries|, already + entries)
      && from + |entries| <= to
      && (entries != [] ==> entries[|entries| - 1].position == from + |entries|)
      && (stop.None? || (stop == Some(Finished) && |full| <= from + |entries|))
  {
    hide Heard, Carried, Sent, Sound, Ended, Legible;
    FaithfulEndsOnce(full, from, to, frames);
    var m := HearsFirstFrames(codec, frames, arrives);
    var some := Carried(frames)[..m];
    CarriedSendsTheSame(frames);
    SentPrefix(Carried(frames), m);
    var entries := Sent(some);
    if entries != [] {
      assert entries == Sent(frames)[..|entries|];
      assert entries == full[from..from + |entries|];
      ReceivedMore(full, start, from, already, entries);
    } else {
      assert already + entries == already;
    }
    if Ended(some) {
      AnEndIsTheLast(frames, m);
    }
  }

  // ---------------------------------------------------------------- up to the first broken entry

  /** The first entry past a position whose text holds a break, or where the log ends. */
  ghost function FirstBroken(codec: Codec, log: seq<LogEntry>, from: nat): (k: nat)
    ensures from <= k && (from <= |log| ==> k <= |log|)
    ensures forall i :: from <= i < k && i < |log| ==> Unbroken(codec.text(log[i]), PythonBreak)
    ensures k < |log| ==> !Unbroken(codec.text(log[k]), PythonBreak)
    decreases |log| - from
  {
    if from >= |log| || !Unbroken(codec.text(log[from]), PythonBreak) then from else FirstBroken(codec, log, from + 1)
  }

  lemma {:induction false} FrameOf(frames: seq<Frame>, c: nat) returns (f: nat)
    requires c < |Sent(frames)|
    ensures f < |frames| && frames[f].EventFrame? && |Sent(frames[..f])| == c
    decreases |frames|
  {
    var most := frames[..|frames| - 1];
    if c < |Sent(most)| {
      f := FrameOf(most, c);
      assert most[..f] == frames[..f];
    } else {
      f := |frames| - 1;
    }
  }

  lemma LegibleWhileSent(codec: Codec, frames: seq<Frame>, sent: seq<LogEntry>)
    requires Sent(frames) == sent
    requires forall i :: 0 <= i < |sent| ==> sent[i].position >= 0 && Unbroken(codec.text(sent[i]), PythonBreak)
    ensures Legible(codec, frames)
  {
    hide Sent, Unbroken;
    forall i | 0 <= i < |frames| && frames[i].EventFrame?
      ensures frames[i].entry.position >= 0 && Unbroken(codec.text(frames[i].entry), PythonBreak)
    {
      EntriesAreSent(frames, i);
    }
  }

  lemma SentNone()
    ensures Sent([]) == []
  {
  }

  /** What comes after entries that are taken is taken after them. */
  lemma {:induction false} ConsumedAfter(codec: Codec, frames: seq<Frame>, more: seq<(string, string)>)
    requires Sound(codec) && Legible(codec, frames) && forall i :: 0 <= i < |frames| ==> frames[i].EventFrame?
    ensures Consumed(codec, Pairs(codec, frames) + more) == (Sent(frames) + Consumed(codec, more).0, Consumed(codec, more).1)
    decreases |frames|
  {
    hide Sent, Unbroken;
    var all := Pairs(codec, frames) + more;
    if frames == [] {
      SentNone();
      assert all == more && Sent(frames) + Consumed(codec, more).0 == Consumed(codec, more).0;
    } else {
      var rest := frames[1..];
      assert forall i :: 0 <= i < |rest| ==> rest[i] == frames[i + 1];
      ConsumedAfter(codec, rest, more);
      SentFirst(frames);
      assert all[0] == PairOf(codec, frames[0]) && all[1..] == Pairs(codec, rest) + more;
      assert [frames[0].entry] + (Sent(rest) + Consumed(codec, more).0) == Sent(frames) + Consumed(codec, more).0;
    }
  }

  /** Legible frames, and then whatever: a beginning of their events is read, or all of them first. */
  lemma ReadsGoodFramesFirst(codec: Codec, good: seq<Frame>, bad: seq<Frame>, arrives: nat) returns (m: nat, events: seq<(string, string)>)
    requires Sound(codec) && Legible(codec, good)
    ensures m <= |Pairs(codec, Carried(good))|
    ensures Heard(codec, good + bad, arrives) == Consumed(codec, events)
    ensures events == Pairs(codec, Carried(good))[..m] || Pairs(codec, Carried(good)) <= events
  {
    hide PrintedAll, TakeLines, Lines, Consumed, OneLine, Sound, Carried, Pairs, Legible, EventsRead, EventsOf;
    var wires, others := WiresOf(codec, good), WiresOf(codec, bad);
    var text := PrintedAll(wires) + PrintedAll(others);
    assert WiresOf(codec, good + bad) == wires + others;
    PrintedBoth(wires, others);
    var n := if arrives <= |text| then arrives else |text|;
    assert text[..n] == if arrives <= |text| then text[..arrives] else text;
    WiresAreOneLine(codec, good);
    BothAreLineBreaks();
    EventsOfFrames(codec, good);
    m := GoodEventsArrive(wires, PrintedAll(others), n, PythonBreak);
    events := EventsRead(text[..n], PythonBreak);
  }

  /** The client takes a beginning of what they send, or all of it and then whatever. */
  lemma HearsGoodFramesFirst(codec: Codec, good: seq<Frame>, bad: seq<Frame>, arrives: nat)
    requires Sound(codec) && Legible(codec, good) && forall i :: 0 <= i < |good| ==> !good[i].EndFrame?
    ensures
      var (entries, stop) := Heard(codec, good + bad, arrives);
      (entries <= Sent(good) && stop.None?) || Sent(good) <= entries
  {
    hide Heard, Consumed, Sound, Sent, Carried, Legible;
    var m, events := ReadsGoodFramesFirst(codec, good, bad, arrives);
    var carried := Carried(good);
    CarriedSendsTheSame(good);
    CarriedAreEvents(good);
    if events == Pairs(codec, carried)[..m] {
      PairsPrefix(codec, carried, m);
      LegibleKept(codec, good, m);
      TakesWhatIsSent(codec, carried[..m]);
      SentPrefix(carried, m);
    } else {
      var more := events[|Pairs(codec, carried)|..];
      assert events == Pairs(codec, carried) + more;
      LegibleKept(codec, good, |carried|);
      assert carried[..|carried|] == carried;
      ConsumedAfter(codec, carried, more);
    }
  }

  lemma CarriedAreEvents(frames: seq<Frame>)
    requires forall i :: 0 <= i < |frames| ==> !frames[i].EndFrame?
    ensures forall i :: 0 <= i < |Carried(frames)| ==> Carried(frames)[i].EventFrame?
  {
    CarriedSendsTheSame(frames);
    forall i | 0 <= i < |Carried(frames)| ensures Carried(frames)[i].EventFrame? {
      var k :| 0 <= k < |frames| && frames[k] == Carried(frames)[i];
    }
  }

  /** The client has the log from its start, up to the first broken entry at the furthest. */
  ghost predicate Unspoilt(full: seq<LogEntry>, start: nat, broken: nat, after: nat, yielded: seq<LogEntry>) {
    Received(full, start, after, yielded) && after <= broken
  }

  /** The client was sent the first broken entry; what it has up to there is the log. */
  ghost predicate Spoilt(full: seq<LogEntry>, start: nat, broken: nat, yielded: seq<LogEntry>) {
    start <= broken < |full| && full[start..broken] <= yielded
  }

  /** One more connection of a client that has met no broken entry yet. */
  lemma HearsUpToTheBroken(codec: Codec, full: seq<LogEntry>, start: nat, from: nat, to: nat, frames: seq<Frame>, arrives: nat, already: seq<LogEntry>)
    requires Sound(codec) && LogInv(full) && Faithful(full, from, to, frames)
    requires Unspoilt(full, start, FirstBroken(codec, full, start), from, already)
    ensures
      var (entries, stop) := Heard(codec, frames, arrives);
      var broken, all := FirstBroken(codec, full, start), already + entries;
      || Spoilt(full, start, broken, all)
      || (&& Unspoilt(full, start, broken, from + |entries|, all)
          && (entries != [] ==> entries[|entries| - 1].position == from + |entries|)
          && (stop.None? || (stop == Some(Finished) && broken <= from + |entries|)))
  {
    hide Heard, Carried, Sent, Sound, Ended, Unbroken;
    var broken := FirstBroken(codec, full, start);
    FaithfulEndsOnce(full, from, to, frames);
    if to <= broken {
      HearsWholeFrames(codec, full, start, from, to, frames, arrives, already, broken);
    } else {
      assert from <= broken < to <= |full|;
      var f := FrameOf(frames, broken - from);
      var good, bad := frames[..f], frames[f..];
      assert frames == good + bad;
      SentPrefix(frames, f);
      assert Sent(good) == full[from..broken];
      LegibleWhileSent(codec, good, full[from..broken]);
      HearsGoodFramesFirst(codec, good, bad, arrives);
      TakenUpTo(full, start, from, broken, already, Heard(codec, frames, arrives).0);
    }
  }

  lemma TakenUpTo(full: seq<LogEntry>, start: nat, from: nat, broken: nat, already: seq<LogEntry>, entries: seq<LogEntry>)
    requires LogInv(full) && from <= broken < |full| && Received(full, start, from, already)
    requires entries <= full[from..broken] || full[from..broken] <= entries
    ensures full[from..broken] <= entries ==> Spoilt(full, start, broken, already + entries)
    ensures entries <= full[from..broken] ==>
      && Unspoilt(full, start, broken, from + |entries|, already + entries)
      && (entries != [] ==> entries[|entries| - 1].position == from + |entries|)
  {
    assert already == full[start..from];
    assert full[start..broken] == already + full[from..broken];
    if entries <= full[from..broken] {
      assert entries == full[from..broken][..|entries|] == full[from..from + |entries|];
      if entries != [] {
        ReceivedMore(full, start, from, already, entries);
      } else {
        assert already + entries == already;
      }
    }
  }

  /** A connection whose every frame is legible. */
  lemma HearsWholeFrames(codec: Codec, full: seq<LogEntry>, start: nat, from: nat, to: nat, frames: seq<Frame>, arrives: nat,
                         already: seq<LogEntry>, broken: nat)
    requires Sound(codec) && LogInv(full) && Faithful(full, from, to, frames) && to <= broken
    requires broken == FirstBroken(codec, full, start) && Unspoilt(full, start, broken, from, already)
    ensures
      var (entries, stop) := Heard(codec, frames, arrives);
      && Unspoilt(full, start, broken, from + |entries|, already + entries)
      && (entries != [] ==> entries[|entries| - 1].position == from + |entries|)
      && (stop.None? || (stop == Some(Finished) && broken <= from + |entries|))
  {
    hide Heard, Carried, Sent, Sound, Ended, Unbroken;
    LegibleWhileSent(codec, frames, Sent(frames));
    HearsTheLog(codec, full, start, from, to, frames, arrives, already);
  }

  /** One connection: what the server sends from where the client has come to, as far as it arrives. */
  method Connect(codec: Codec, trace: seq<Action>, id: string, ghost since: nat, after: nat, c: Connection)
    returns (entries: seq<LogEntry>, stop: Option<Outcome>, ghost frames: seq<Frame>, ghost reached: nat)
    requires since <= |trace| && RoundsOf(trace, since, c.rounds)
    ensures frames == Followed(trace, id, after, 0.0, c.rounds)
    ensures OneLife(trace, id, since) ==> Faithful(FullLog(trace, id), after, reached, frames)
    ensures (entries, stop) == Heard(codec, frames, c.arrives)
    ensures forall i :: 0 <= i < |entries| ==> entries[i].position >= 0
    ensures stop.None? || stop == Some(Finished) || stop == Some(Undecodable)
  {
    hide Next, After, OneLife, Faithful, FullLog, Followed, Consumed, PrintedAll, TakeLines, Lines;
    var sent, to := Follow(trace, id, since, after, c.rounds);
    frames, reached := sent, to;
    var text := PrintedAll(WiresOf(codec, sent));
    var events := ReadEvents(Lines(if c.arrives <= |text| then text[..c.arrives] else text, PythonBreak));
    entries, stop := Consume(codec, events);
  }

  /** The client's iteration, over any connections, however they are dropped or cut, in the middle of an
      event too. Up to the first event whose text holds one of its reader's line breaks it yields each
      position past its start exactly once, in order and with no gap; if there is none such it never
      fails on an event, and has yielded them all when it ends because the run has.
      `EntryReadAs` says what becomes of an event that does hold one. */
  method StreamEvents(codec: Codec, trace: seq<Action>, id: string, ghost since: nat, start: nat, connections: seq<Connection>, maxRetries: nat)
    returns (yielded: seq<LogEntry>, outcome: Outcome)
    requires Sound(codec)
    requires since <= |trace| && forall c :: c in connections ==> RoundsOf(trace, since, c.rounds)
    ensures OneLife(trace, id, since) ==>
      var full := FullLog(trace, id);
      var clear := FirstBroken(codec, full, start) - start;
      var common := if |yielded| <= clear then |yielded| else clear;
      && yielded[..common] == Slice(full, start, start + common)
      && (|yielded| > clear || outcome.Undecodable? ==> start + clear < |full|)
      && (outcome.Finished? || outcome.Undecodable? ==> clear <= |yielded|)
    ensures outcome.Unreachable? ==> maxRetries < |connections|
  {
    hide Next, After, OneLife, Faithful, Received, FullLog, Sound, Followed, Heard, FirstBroken, Unspoilt, Spoilt, Slice;
    ghost var whole, full := OneLife(trace, id, since), FullLog(trace, id);
    ghost var broken := FirstBroken(codec, full, start);
    if whole {
      PrefixOfFull(trace, id, since, |trace|);
    }
    var after: nat, failures := start, 0;
    yielded := [];
    ghost var spoilt := false;
    NothingYet(full, start, broken);
    for i := 0 to |connections|
      invariant whole && !spoilt ==> Unspoilt(full, start, broken, after, yielded)
      invariant whole && spoilt ==> Spoilt(full, start, broken, yielded)
      invariant 0 <= failures <= i
    {
      var c := connections[i];
      ghost var frames, reached;
      var entries, stop;
      entries, stop, frames, reached := Connect(codec, trace, id, since, after, c);
      if whole && !spoilt {
        HearsUpToTheBroken(codec, full, start, after, reached, frames, c.arrives, yielded);
        spoilt := Spoilt(full, start, broken, yielded + entries);
        if entries == [] {
          assert yielded + entries == yielded;
        }
      } else if whole {
        StaysSpoilt(full, start, broken, yielded, entries);
      }
      ghost var until := after + |entries|;
      yielded := yielded + entries;
      if entries != [] {
        after, failures := entries[|entries| - 1].position, 0;
      }
      if stop.Some? {
        if whole {
          Settled(full, start, broken, spoilt, until, yielded);
        }
        return yielded, stop.value;
      }
      if c.dropped {
        if failures >= maxRetries {
          if whole {
            Settled(full, start, broken, spoilt, after, yielded);
          }
          return yielded, Unreachable;
        }
        failures := failures + 1;
      }
    }
    if whole {
      Settled(full, start, broken, spoilt, after, yielded);
    }
    return yielded, Open;
  }

  lemma NothingYet(full: seq<LogEntry>, start: nat, broken: nat)
    requires start <= broken
    ensures Unspoilt(full, start, broken, start, [])
  {
    NothingReceivedYet(full, start);
  }

  lemma StaysSpoilt(full: seq<LogEntry>, start: nat, broken: nat, yielded: seq<LogEntry>, entries: seq<LogEntry>)
    requires Spoilt(full, start, broken, yielded)
    ensures Spoilt(full, start, broken, yielded + entries)
  {
  }

  lemma Settled(full: seq<LogEntry>, start: nat, broken: nat, spoilt: bool, after: nat, yielded: seq<LogEntry>)
    requires start <= broken
    requires if spoilt then Spoilt(full, start, broken, yielded) else Unspoilt(full, start, broken, after, yielded)
    ensures
      var clear := broken - start;
      var common := if |yielded| <= clear then |yielded| else clear;
      yielded[..common] == Slice(full, start, start + common)
    ensures !spoilt ==> after == start + |yielded| <= broken
    ensures spoilt ==> broken < |full| && broken - start <= |yielded|
  {
    if !spoilt {
      assert yielded[..|yielded|] == yielded;
    }
  }

  // ---------------------------------------------------------------- what a broken entry does

  /** The event decodes as an entry. */
  predicate Decodes(codec: Codec, event: (string, string)) {
    event.0 != "end" && codec.parse(event.1).Some? && codec.parse(event.1).value.position >= 0
  }

  /** Where the client stops: at the first event that is an end or decodes as no entry. */
  lemma {:induction false} StopsAt(codec: Codec, events: seq<(string, string)>, i: nat)
    requires i <= |events| && (forall j :: 0 <= j < i ==> Decodes(codec, events[j])) && (i < |events| ==> !Decodes(codec, events[i]))
    ensures
      var (entries, stop) := Consumed(codec, events);
      && |entries| == i && (forall j :: 0 <= j < i ==> Decodes(codec, events[j]) && entries[j] == codec.parse(events[j].1).value)
      && stop == if i == |events| then None else if events[i].0 == "end" then Some(Finished) else Some(Undecodable)
    decreases |events|
  {
    if i > 0 {
      assert forall j :: 0 <= j < i - 1 ==> events[1..][j] == events[j + 1];
      StopsAt(codec, events[1..], i - 1);
    }
  }

  /** What reaches the client of any entry at all: the text's first piece as the data, and each further
      piece as a line of its own, in blocks. */
  lemma EntryReadAs(codec: Codec, e: LogEntry)
    requires Sound(codec) && '\r' !in codec.text(e)
    ensures
      var pieces := Pieces(codec.text(e), PythonBreak);
      Heard(codec, [EventFrame(e)], |PrintedAll(WiresOf(codec, [EventFrame(e)]))|) ==
        Consumed(codec, BlockEvents(codec.name(e), pieces[0], pieces[1..] + [""]))
  {
    hide EventsRead, Printed, BlockEvents, Pieces, Consumed;
    BothAreLineBreaks();
    var wires := WiresOf(codec, [EventFrame(e)]);
    var w := wires[0];
    assert wires[1..] == [];
    assert PrintedAll(wires) == Printed(w) + "" == Printed(w);
    assert PrintedAll(wires)[..|PrintedAll(wires)|] == Printed(w);
    TextReadAs(w.position, codec.name(e), codec.text(e), PythonBreak);
  }

  /** An entry of a text without blank pieces: with the name its last `event: ` piece gives and the data
      its last `data: ` piece gives, the client ends as if the run had when the name is `end`, fails
      when the data is no entry, and else takes whatever entry the data is; without data, nothing. */
  lemma BrokenEntryEnds(codec: Codec, e: LogEntry)
    requires Sound(codec) && '\r' !in codec.text(e) && NoneBlank(Pieces(codec.text(e), PythonBreak)[1..])
    ensures
      var pieces := Pieces(codec.text(e), PythonBreak);
      var named, given := LastField("event: ", pieces[1..], codec.name(e)), LastField("data: ", pieces[1..], pieces[0]);
      Heard(codec, [EventFrame(e)], |PrintedAll(WiresOf(codec, [EventFrame(e)]))|) ==
        if given == "" then ([], None)
        else if named == "end" then ([], Some(Finished))
        else if !Decodes(codec, (named, given)) then ([], Some(Undecodable))
        else ([codec.parse(given).value], None)
  {
    hide EventsRead, Printed, Pieces, LastField, NoneBlank, BlockEvents, Heard;
    BothAreLineBreaks();
    EntryReadAs(codec, e);
    var pieces := Pieces(codec.text(e), PythonBreak);
    TextReadAs(None, codec.name(e), codec.text(e), PythonBreak);
    TextReadAsOne(None, codec.name(e), codec.text(e), PythonBreak);
    var named, given := LastField("event: ", pieces[1..], codec.name(e)), LastField("data: ", pieces[1..], pieces[0]);
    var one := [(named, given)];
    assert one[0] == (named, given) && one[1..] == [] && Consumed(codec, []) == ([], None);
    assert Consumed(codec, one) ==
      if named == "end" then ([], Some(Finished))
      else if !Decodes(codec, (named, given)) then ([], Some(Undecodable))
      else ([codec.parse(given).value] + [], None);
    assert BlockEvents(codec.name(e), pieces[0], pieces[1..] + [""]) == if given == "" then [] else one;
    if Decodes(codec, (named, given)) {
      assert [codec.parse(given).value] + [] == [codec.parse(given).value];
    }
  }

  /** Any text can do either. `part` is what comes before the first break, and `more` no field. With the
      line `event: end` in between, the client ends as if the run had; without it, and `part` no entry,
      as no proper beginning of one is, it fails. */
  lemma EndsEitherWay(codec: Codec, e: LogEntry, part: string, end: char, more: string)
    requires Sound(codec) && Separates(end) && Unbroken(part, PythonBreak) && part != "" && codec.parse(part).None?
    requires Unbroken(more, PythonBreak) && more != "" && !("event: " <= more) && !("data: " <= more)
    ensures codec.text(e) == part + [end] + ("event: end" + [end] + more) ==>
      Heard(codec, [EventFrame(e)], |PrintedAll(WiresOf(codec, [EventFrame(e)]))|) == ([], Some(Finished))
    ensures codec.text(e) == part + [end] + more ==>
      Heard(codec, [EventFrame(e)], |PrintedAll(WiresOf(codec, [EventFrame(e)]))|) == ([], Some(Undecodable))
  {
    hide Heard, Pieces;
    var says := "event: end";
    assert says[0] == 'e' && "data: "[0] == 'd';
    assert Unbroken(says, PythonBreak) && "event: " <= says && says[|"event: "|..] == "end" && !("data: " <= says);
    if codec.text(e) == part + [end] + (says + [end] + more) {
      PiecesOfPair(part, end, says + [end] + more, PythonBreak);
      PiecesOfPair(says, end, more, PythonBreak);
      PieceOfOne(more, PythonBreak);
      var pieces := Pieces(codec.text(e), PythonBreak);
      assert pieces == [part, says, more] && pieces[1..] == [says, more];
      assert [says, more][..1] == [says] && [says][..0] == [];
      assert LastField("event: ", [says, more], codec.name(e)) == LastField("event: ", [says], codec.name(e)) == "end";
      assert LastField("data: ", [says, more], part) == LastField("data: ", [says], part) == part;
      NoReturns(codec.text(e), part, says, more, end);
      BrokenEntryEnds(codec, e);
    } else if codec.text(e) == part + [end] + more {
      PiecesOfPair(part, end, more, PythonBreak);
      PieceOfOne(more, PythonBreak);
      var pieces := Pieces(codec.text(e), PythonBreak);
      assert pieces == [part, more] && pieces[1..] == [more] && [more][..0] == [];
      assert LastField("event: ", [more], codec.name(e)) == codec.name(e) && LastField("data: ", [more], part) == part;
      BrokenEntryEnds(codec, e);
    }
  }

  lemma NoReturns(text: string, part: string, says: string, more: string, end: char)
    requires text == part + [end] + (says + [end] + more) && Separates(end)
    requires Unbroken(part, PythonBreak) && Unbroken(says, PythonBreak) && Unbroken(more, PythonBreak)
    ensures '\r' !in text
  {
  }

  lemma NothingReceivedYet(full: seq<LogEntry>, start: nat)
    ensures Received(full, start, start, [])
  {
  }

  // ---------------------------------------------------------------- a purge between the two reads

  const RUNS := Action(Start("x", "t", Asked("a", None, None, 0, None, ""), None, false), 0.0)
  const LOGS := Action(Append("x", "t", [RunEvent("t", "x", 1, 1, "hello")], None), 1.0)
  const ENDS := Action(OnRun("x", Some("t"), Finish(Ending(Success, None, None), None, 0.0)), 2.0)
  const GOES := Action(Purge("x", 3.0), 4.0)

  lemma FourSteps()
    ensures
      var ended := Next(Next(Next(EMPTY, RUNS), LOGS), ENDS);
      && "x" in ended.runs && ended.runs["x"].status.Success? && |ended.Log("x")| == 1
      && Next(ended, GOES).Log("x") == []
  {
    var started := Next(EMPTY, RUNS);
    assert started.runs["x"] == Started("t", RUNS.step.asked, None, false, 0.0);
    assert LOGS.step.events[0] == RunEvent("t", "x", 1, 1, "hello");
    assert AppendFault(started, "x", "t", LOGS.step.events, None).None?;
    var logged := Next(started, LOGS);
    assert logged.runs == started.runs;
    assert !Logged([], LOGS.step.events[0]);
    assert LOGS.step.events[1..] == [];
    assert Appended([], LOGS.step.events) == [] + [LogEntry(1, LOGS.step.events[0])];
    var ended := Next(logged, ENDS);
    assert Purgeable(ended, "x", 3.0);
  }

  /** The status read as final at one moment, the page at a later one. While the run is there the
      page is of the very log it ended with. Once it was purged in between the page is right exactly
      when nothing was left to send and nothing is sent, or a run started since under the same id has
      logged the very same events past that position. */
  lemma PageAfterFinal(trace: seq<Action>, id: string, statusAt: nat, pageAt: nat, after: nat)
    requires statusAt <= pageAt <= |trace|
    requires id in After(trace, statusAt).runs && After(trace, statusAt).runs[id].status.Final()
    ensures
      var ended, read := After(trace, statusAt).Log(id), After(trace, pageAt).Log(id);
      && (Alive(trace, id, statusAt, pageAt) ==> Past(read, after) == Past(ended, after))
      && (id !in After(trace, pageAt).runs ==> (Past(read, after) == Past(ended, after) <==> |ended| <= after))
      && (Past(read, after) == Past(ended, after) <==>
            || (|ended| <= after && |read| <= after)
            || (after < |ended| == |read| && forall i :: after <= i < |read| ==> read[i] == ended[i]))
  {
    hide Next;
    Reachable(trace, statusAt);
    Reachable(trace, pageAt);
    var ended, read := After(trace, statusAt).Log(id), After(trace, pageAt).Log(id);
    PastIsTail(ended, after);
    PastIsTail(read, after);
    if Alive(trace, id, statusAt, pageAt) {
      LogGrows(trace, id, statusAt, pageAt);
    }
    if after < |ended| && after < |read| {
      TailsAgree(ended, read, after);
    }
  }

  lemma TailsAgree(one: seq<LogEntry>, other: seq<LogEntry>, after: nat)
    requires after < |one| && after < |other|
    ensures one[after..] == other[after..] <==> |one| == |other| && forall i :: after <= i < |other| ==> other[i] == one[i]
  {
    if one[after..] == other[after..] {
      assert |one[after..]| == |other[after..]|;
      forall i | after <= i < |other| ensures other[i] == one[i] {
        assert one[after..][i - after] == other[after..][i - after];
      }
    }
  }

  /** Why the run must not be purged meanwhile: the status is read as final with one event logged, the
      purge comes before the page is read, and all the stream ever sends is its `end`. */
  lemma PurgeHidesTheTail()
    ensures
      var trace := [RUNS, LOGS, ENDS, GOES];
      && |After(trace, 3).Log("x")| == 1
      && Followed(trace, "x", 0, 0.0, [Round(3, 4, false)]) == [EndFrame(Success)]
      && !OneLife(trace, "x", 3)
  {
    hide Next;
    var trace := [RUNS, LOGS, ENDS, GOES];
    FourSteps();
    assert After(trace, 1) == Next(After(trace, 0), trace[0]);
    assert After(trace, 2) == Next(After(trace, 1), trace[1]);
    assert After(trace, 3) == Next(After(trace, 2), trace[2]);
    assert After(trace, 4) == Next(After(trace, 3), trace[3]);
    assert AsFrames([]) == [] && [] + [EndFrame(Success)] == [EndFrame(Success)];
    if OneLife(trace, "x", 3) {
      assert Alive(trace, "x", 3, 4);
      LogGrows(trace, "x", 3, 4);
    }
  }
}
