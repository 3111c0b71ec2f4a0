/**
 * The live stream (`iter_new_events` in api.py): poll the newest rows, yield the
 * readable ones above a cursor, move the cursor.
 */
module EventStream {
  import opened Prelude
  import opened EventStore
  import Filters

  const STREAM_BATCH_SIZE := 100
  const KIND_NOTIFICATION := "notification"

  /** Units with declared capabilities; a unit not listed may report everything. */
  type Capabilities = map<string, set<string>>

  function CapabilityFor(kind: string): string {
    if kind == KIND_NOTIFICATION then "notifications" else "sms"
  }

  predicate Readable(r: Row, config: Option<Capabilities>) {
    match config
    case None => true
    case Some(caps) => r.event.unit !in caps || CapabilityFor(r.event.kind) in caps[r.event.unit]
  }

  /** The rows a poll yields: of the newest rows those above the cursor, oldest first. */
  function Chosen(rows: seq<Row>, lastSeen: int, config: Option<Capabilities>): seq<Row> {
    if rows == [] then []
    else
      (if rows[|rows| - 1].id > lastSeen && Readable(rows[|rows| - 1], config) then [rows[|rows| - 1]] else [])
      + Chosen(rows[..|rows| - 1], lastSeen, config)
  }

  function Frames(rows: seq<Row>, lastSeen: int, config: Option<Capabilities>): seq<Row> {
    Chosen(Query(rows, None, None, None, STREAM_BATCH_SIZE), lastSeen, config)
  }

  function Cursor(lastSeen: int, frames: seq<Row>): int {
    if frames == [] then lastSeen
    else Max(Cursor(lastSeen, frames[..|frames| - 1]), frames[|frames| - 1].id)
  }

  /** The filters, with the text operations they use. */
  datatype Announcer = Announcer(text: Filters.Text, rules: seq<Filters.Rule>)

  /** What the client gets of a row: the row itself, and whether to announce it. */
  datatype Frame = Frame(row: Row, notify: bool, filter: Option<string>)

  function FrameOf(r: Row, filters: Option<Announcer>): Frame {
    match filters
    case None => Frame(r, true, None)
    case Some(a) =>
      var (notify, rule) := Filters.ShouldPush(a.text, r.event, a.rules);
      Frame(r, notify, if rule.Some? then Some(rule.value.name) else None)
  }

  class Follower {
    const config: Option<Capabilities>
    const filters: Option<Announcer>
    var lastSeen: int

    constructor (lastSeen: int, config: Option<Capabilities>, filters: Option<Announcer>)
      ensures this.lastSeen == lastSeen && this.config == config && this.filters == filters
    {
      this.lastSeen, this.config, this.filters := lastSeen, config, filters;
    }

    /** One turn of the loop: without a live login it ends, and nothing more is read. */
    method Turn(store: Store, authorised: bool) returns (going: bool, frames: seq<Frame>)
      requires Ascending(store.rows)
      modifies this
      ensures going == authorised
      ensures !authorised ==> frames == [] && lastSeen == old(lastSeen)
      ensures authorised ==>
                var yielded := Frames(store.rows, old(lastSeen), config);
                && lastSeen == Cursor(old(lastSeen), yielded)
                && |frames| == |yielded|
                && forall i :: 0 <= i < |yielded| ==> frames[i] == FrameOf(yielded[i], filters)
    {
      if !authorised {
        return false, [];
      }
      var rows := Poll(store);
      frames := seq(|rows|, i requires 0 <= i < |rows| => FrameOf(rows[i], filters));
      going := true;
    }

    method Poll(store: Store) returns (frames: seq<Row>)
      requires Ascending(store.rows)
      modifies this
      ensures frames == Frames(store.rows, old(lastSeen), config)
      ensures lastSeen == Cursor(old(lastSeen), frames)
    {
      var newest := store.QueryEvents(None, None, None, STREAM_BATCH_SIZE);
      frames := Yield(newest);
    }

    /** Yield the chosen rows in reverse, moving the cursor past each. */
    method Yield(newest: seq<Row>) returns (frames: seq<Row>)
      modifies this
      ensures frames == Chosen(newest, old(lastSeen), config)
      ensures lastSeen == Cursor(old(lastSeen), frames)
    {
      var start := lastSeen;
      frames := [];
      var i := |newest|;
      assert newest[..i] == newest;
      while i > 0
        invariant 0 <= i <= |newest|
        invariant frames + Chosen(newest[..i], start, config) == Chosen(newest, start, config)
        invariant lastSeen == Cursor(start, frames)
      {
        i := i - 1;
        ChosenStep(newest, i, start, config, frames);
        if newest[i].id > start && Readable(newest[i], config) {
          CursorStep(start, frames, newest[i]);
          frames := frames + [newest[i]];
          lastSeen := Max(lastSeen, newest[i].id);
        }
      }
      assert frames + [] == frames;
    }
  }

  lemma ChosenStep(newest: seq<Row>, i: nat, start: int, config: Option<Capabilities>, frames: seq<Row>)
    requires i < |newest|
    ensures frames + Chosen(newest[..i + 1], start, config)
            == (if newest[i].id > start && Readable(newest[i], config) then frames + [newest[i]] else frames)
               + Chosen(newest[..i], start, config)
  {
    assert newest[..i + 1][..i] == newest[..i];
  }

  lemma CursorStep(start: int, frames: seq<Row>, r: Row)
    ensures Cursor(start, frames + [r]) == Max(Cursor(start, frames), r.id)
  {
    assert (frames + [r])[..|frames|] == frames;
  }

  /**
   * What may be read of a unit: everything where nothing is configured or the unit
   * is not listed; otherwise notifications with the "notifications" capability and
   * every other kind with "sms".
   */
  lemma ReadableIff(r: Row, config: Option<Capabilities>)
    ensures Readable(r, config) <==>
            || config == None
            || r.event.unit !in config.value
            || (r.event.kind == "notification" && "notifications" in config.value[r.event.unit])
            || (r.event.kind != "notification" && "sms" in config.value[r.event.unit])
  {}

  /** How many rows come before one: those of a later time stamp, or of the same one and a higher id. */
  lemma {:induction false} RankCounts(rows: seq<Row>, r: Row)
    ensures Rank(rows, r) == |Before(rows, r)|
    ensures forall q :: q in Before(rows, r) <==> q in rows && EventStore.ComesBefore(q, r)
  {
    if rows != [] {
      var init, last := rows[..|rows| - 1], rows[|rows| - 1];
      RankCounts(init, r);
      NewerComesBefore(last, r);
      assert rows == init + [last];
    }
  }

  function Before(rows: seq<Row>, r: Row): seq<Row> {
    if rows == [] then []
    else
      Before(rows[..|rows| - 1], r)
      + (if ComesBefore(rows[|rows| - 1], r) then [rows[|rows| - 1]] else [])
  }

  /** Without filters everything is announced; with them, what they decide, under the name of the rule that did. */
  lemma FrameSays(r: Row, filters: Option<Announcer>)
    ensures FrameOf(r, filters).row == r
    ensures filters == None ==> FrameOf(r, filters) == Frame(r, true, None)
    ensures filters.Some? ==>
              var (verdict, rule) := Filters.ShouldPush(filters.value.text, r.event, filters.value.rules);
              FrameOf(r, filters).notify == verdict
              && (FrameOf(r, filters).filter == None <==> rule == None)
              && (rule.Some? ==> FrameOf(r, filters).filter == Some(rule.value.name))
  {}

  // -------------------------------------------------------------- whole runs

  /**
   * The table and one stream over it: what the stream yielded, the rows inserted
   * since it connected, and those of them inserted since its last poll.
   */
  datatype Watch = Watch(
    rows: seq<Row>,
    lastSeen: int,
    yielded: seq<Row>,
    inserted: seq<Row>,
    waiting: seq<Row>)

  datatype Step =
    | Drained(events: seq<Event>, at: int)
    | SentOne(unit: string, address: string, body: string, timestamp: int, now: int)
    | Pruned(retention: seq<Policy>, pruneNow: int)
    | Polled

  function Connected(rows: seq<Row>): Watch {
    Watch(rows, LatestId(rows), [], [], [])
  }

  function Grown(w: Watch, rows: seq<Row>): Watch
    requires w.rows <= rows
  {
    w.(rows := rows,
       inserted := w.inserted + rows[|w.rows|..],
       waiting := w.waiting + rows[|w.rows|..])
  }

  lemma {:induction false} InsertsOnlyAppend(rows: seq<Row>, events: seq<Event>, at: int)
    ensures rows <= AfterInserts(rows, events, at)
  {
    if events != [] {
      InsertsOnlyAppend(rows, events[..|events| - 1], at);
    }
  }

  function Next(w: Watch, step: Step, config: Option<Capabilities>): Watch {
    match step
    case Drained(events, at) =>
      InsertsOnlyAppend(w.rows, events, at);
      Grown(w, AfterInserts(w.rows, events, at))
    case SentOne(unit, address, body, ts, now) =>
      Grown(w, AfterInsert(w.rows, SentEvent(w.rows, unit, address, body, ts), now))
    case Pruned(retention, now) => w.(rows := AfterPrune(w.rows, retention, now))
    case Polled =>
      var frames := Frames(w.rows, w.lastSeen, config);
      w.(yielded := w.yielded + frames, lastSeen := Cursor(w.lastSeen, frames), waiting := [])
  }

  function Run(w: Watch, steps: seq<Step>, config: Option<Capabilities>): Watch {
    if steps == [] then w else Next(Run(w, steps[..|steps| - 1], config), steps[|steps| - 1], config)
  }

  // ------------------------------------------------------------ what is chosen

  lemma {:induction false} ChosenAre(rows: seq<Row>, lastSeen: int, config: Option<Capabilities>)
    ensures forall r :: r in Chosen(rows, lastSeen, config) <==>
                        r in rows && r.id > lastSeen && Readable(r, config)
    ensures IdsDistinct(rows) ==> IdsDistinct(Chosen(rows, lastSeen, config))
  {
    if rows != [] {
      var init, last := rows[..|rows| - 1], rows[|rows| - 1];
      ChosenAre(init, lastSeen, config);
      assert rows == init + [last];
      var rest := Chosen(init, lastSeen, config);
      if IdsDistinct(rows) {
        forall i | 0 <= i < |rest|
          ensures rest[i].id != last.id
        {
          assert rest[i] in init;
        }
      }
    }
  }

  lemma {:induction false} CursorIsHighest(lastSeen: int, frames: seq<Row>)
    ensures var c := Cursor(lastSeen, frames);
            && c >= lastSeen
            && (forall r :: r in frames ==> r.id <= c)
            && (c == lastSeen || exists r :: r in frames && r.id == c)
  {
    if frames != [] {
      CursorIsHighest(lastSeen, frames[..|frames| - 1]);
      assert frames == frames[..|frames| - 1] + [frames[|frames| - 1]];
    }
  }

  lemma AscendingIsDistinct(rows: seq<Row>)
    requires Ascending(rows)
    ensures IdsDistinct(rows)
  {}

  lemma SortedIsDistinct(rows: seq<Row>, all: seq<Row>)
    requires SortedNewest(rows) && Ascending(all) && forall r :: r in rows ==> r in all
    ensures IdsDistinct(rows)
  {
    forall i, j | 0 <= i < j < |rows|
      ensures rows[i].id != rows[j].id
    {
      assert Newer(rows[i], rows[j]);
      assert rows[i] in all && rows[j] in all;
      var a :| 0 <= a < |all| && all[a] == rows[i];
      var b :| 0 <= b < |all| && all[b] == rows[j];
      assert a != b;
    }
  }

  /** A poll's frames: distinct, above the old cursor, exactly the readable rows of the newest hundred. */
  lemma FramesAre(rows: seq<Row>, lastSeen: int, config: Option<Capabilities>, r: Row)
    requires Ascending(rows)
    ensures r in Frames(rows, lastSeen, config) <==>
            r in rows && Rank(rows, r) < 100 && r.id > lastSeen && Readable(r, config)
    ensures IdsDistinct(Frames(rows, lastSeen, config))
  {
    MatchingEverything(rows);
    AscendingIsDistinct(rows);
    var newest := Query(rows, None, None, None, STREAM_BATCH_SIZE);
    assert newest == Top(rows, STREAM_BATCH_SIZE);
    TopIsRankBelowLimit(rows, STREAM_BATCH_SIZE, r);
    ChosenAre(newest, lastSeen, config);
    forall q | q in newest
      ensures q in rows
    {
      TopIsRankBelowLimit(rows, STREAM_BATCH_SIZE, q);
    }
    SortedIsDistinct(newest, rows);
  }

  // ---------------------------------------------------------------- at most once

  ghost predicate SeenBelowCursor(w: Watch) {
    && ValidTable(w.rows)
    && IdsDistinct(w.yielded)
    && forall r :: r in w.yielded ==> r.id <= w.lastSeen
  }

  lemma TableStaysValid(w: Watch, step: Step, config: Option<Capabilities>)
    requires ValidTable(w.rows)
    ensures ValidTable(Next(w, step, config).rows)
  {
    match step
    case Drained(events, at) => BatchAppendsExactlyTheNewOnes(w.rows, events, at);
    case SentOne(unit, address, body, ts, now) =>
      InsertKeepsTable(w.rows, SentEvent(w.rows, unit, address, body, ts), now);
    case Pruned(retention, now) => PruneRemovesExactlyTheExpired(w.rows, retention, now);
    case Polled =>
  }

  lemma PollAppendsFresh(w: Watch, config: Option<Capabilities>)
    requires SeenBelowCursor(w)
    ensures SeenBelowCursor(Next(w, Polled, config))
  {
    var frames := Frames(w.rows, w.lastSeen, config);
    CursorIsHighest(w.lastSeen, frames);
    forall i, j | 0 <= i < |w.yielded| && 0 <= j < |frames|
      ensures w.yielded[i].id < frames[j].id
    {
      assert w.yielded[i] in w.yielded;
      FramesAre(w.rows, w.lastSeen, config, frames[j]);
    }
    if frames != [] {
      FramesAre(w.rows, w.lastSeen, config, frames[0]);
    }
  }

  /** Over any run, whatever is pruned meanwhile, no row id is yielded twice. */
  lemma {:induction false} NoIdTwice(rows: seq<Row>, steps: seq<Step>, config: Option<Capabilities>)
    requires ValidTable(rows)
    ensures SeenBelowCursor(Run(Connected(rows), steps, config))
    ensures IdsDistinct(Run(Connected(rows), steps, config).yielded)
  {
    if steps != [] {
      var init, last := steps[..|steps| - 1], steps[|steps| - 1];
      NoIdTwice(rows, init, config);
      var w := Run(Connected(rows), init, config);
      if last.Polled? {
        PollAppendsFresh(w, config);
      } else {
        TableStaysValid(w, last, config);
      }
    }
  }

  /** A row the cursor has passed without yielding it is lost to this stream for good. */
  lemma {:induction false} PassedOverIsLost(w: Watch, steps: seq<Step>, config: Option<Capabilities>, r: Row)
    requires ValidTable(w.rows) && r.id <= w.lastSeen && r !in w.yielded
    ensures var w' := Run(w, steps, config);
            ValidTable(w'.rows) && r.id <= w'.lastSeen && r !in w'.yielded
  {
    if steps != [] {
      var init, last := steps[..|steps| - 1], steps[|steps| - 1];
      PassedOverIsLost(w, init, config, r);
      var mid := Run(w, init, config);
      TableStaysValid(mid, last, config);
      if last.Polled? {
        FramesAre(mid.rows, mid.lastSeen, config, r);
        CursorIsHighest(mid.lastSeen, Frames(mid.rows, mid.lastSeen, config));
      }
    }
  }

  // ------------------------------------------------------------- row by row

  /** Whether a poll now would yield a row. */
  predicate InView(w: Watch, config: Option<Capabilities>, r: Row) {
    && w.lastSeen < r.id
    && Readable(r, config)
    && r in w.rows
    && Rank(w.rows, r) < STREAM_BATCH_SIZE
  }

  lemma {:induction false} RunStaysSeen(w: Watch, steps: seq<Step>, config: Option<Capabilities>)
    requires SeenBelowCursor(w)
    ensures SeenBelowCursor(Run(w, steps, config))
    ensures w.yielded <= Run(w, steps, config).yielded
  {
    if steps != [] {
      var init, last := steps[..|steps| - 1], steps[|steps| - 1];
      RunStaysSeen(w, init, config);
      if last.Polled? {
        PollAppendsFresh(Run(w, init, config), config);
      } else {
        TableStaysValid(Run(w, init, config), last, config);
      }
    }
  }

  /** The polls of a run at which a row is in view. */
  ghost predicate ShownAt(w: Watch, steps: seq<Step>, config: Option<Capabilities>, r: Row, k: nat) {
    k < |steps| && steps[k].Polled? && InView(Run(w, steps[..k], config), config, r)
  }

  ghost predicate Shown(w: Watch, steps: seq<Step>, config: Option<Capabilities>, r: Row) {
    exists k: nat :: ShownAt(w, steps, config, r, k)
  }

  lemma ShownByPrefix(w: Watch, steps: seq<Step>, config: Option<Capabilities>, r: Row)
    requires steps != []
    ensures var init := steps[..|steps| - 1];
            Shown(w, steps, config, r) <==>
              || Shown(w, init, config, r)
              || (steps[|init|].Polled? && InView(Run(w, init, config), config, r))
  {
    var init := steps[..|steps| - 1];
    forall k: nat | k < |init|
      ensures ShownAt(w, init, config, r, k) <==> ShownAt(w, steps, config, r, k)
    {
      assert init[..k] == steps[..k];
    }
    if k: nat :| ShownAt(w, steps, config, r, k) {
      assert k == |init| || ShownAt(w, init, config, r, k);
    }
    if k: nat :| ShownAt(w, init, config, r, k) {
      assert ShownAt(w, steps, config, r, k);
    }
    assert ShownAt(w, steps, config, r, |init|) <==>
      steps[|init|].Polled? && InView(Run(w, init, config), config, r);
  }

  lemma PollYieldsIff(w: Watch, mid: Watch, config: Option<Capabilities>, r: Row)
    requires Ascending(mid.rows) && w.yielded <= mid.yielded
    ensures w.yielded <= Next(mid, Polled, config).yielded
    ensures r in Next(mid, Polled, config).yielded[|w.yielded|..]
            <==> r in mid.yielded[|w.yielded|..] || InView(mid, config, r)
  {
    var frames := Frames(mid.rows, mid.lastSeen, config);
    FramesAre(mid.rows, mid.lastSeen, config, r);
    assert (mid.yielded + frames)[|w.yielded|..] == mid.yielded[|w.yielded|..] + frames;
  }

  lemma {:induction false} YieldedIffShown(w: Watch, steps: seq<Step>, config: Option<Capabilities>, r: Row)
    requires SeenBelowCursor(w)
    ensures w.yielded <= Run(w, steps, config).yielded
    ensures r in Run(w, steps, config).yielded[|w.yielded|..] <==> Shown(w, steps, config, r)
  {
    if steps == [] {
      assert w.yielded[|w.yielded|..] == [];
    } else {
      var init, last := steps[..|steps| - 1], steps[|steps| - 1];
      YieldedIffShown(w, init, config, r);
      RunStaysSeen(w, init, config);
      ShownByPrefix(w, steps, config, r);
      var mid := Run(w, init, config);
      if last.Polled? {
        PollYieldsIff(w, mid, config, r);
      }
    }
  }

  /**
   * From any point of any run on, a row is yielded once if some poll finds it
   * readable, present, among the newest hundred and above the cursor, and never
   * otherwise; what happens to other rows does not matter.
   */
  lemma YieldedOnceIffShown(
    rows: seq<Row>, before: seq<Step>, steps: seq<Step>, config: Option<Capabilities>, r: Row)
    requires ValidTable(rows)
    ensures var w := Run(Connected(rows), before, config);
            && w.yielded <= Run(w, steps, config).yielded
            && multiset(Run(w, steps, config).yielded[|w.yielded|..])[r]
               == if Shown(w, steps, config, r) then 1 else 0
  {
    var w := Run(Connected(rows), before, config);
    NoIdTwice(rows, before, config);
    YieldedIffShown(w, steps, config, r);
    RunStaysSeen(w, steps, config);
    OnceIfDistinct(Run(w, steps, config).yielded[|w.yielded|..], r);
  }

  predicate Inserts(step: Step) {
    step.Drained? || step.SentOne?
  }

  predicate Quiet(steps: seq<Step>) {
    forall s :: s in steps ==> !s.Polled?
  }

  /** The rows a step adds are numbered on from the newest row the table had. */
  lemma AddedRowsAreNumbered(w: Watch, insert: Step, config: Option<Capabilities>, j: nat)
    requires ValidTable(w.rows) && Inserts(insert)
    requires |w.rows| + j < |Next(w, insert, config).rows|
    ensures w.rows <= Next(w, insert, config).rows
    ensures Next(w, insert, config).rows[|w.rows| + j].id == LatestId(w.rows) + 1 + j
  {
    match insert
    case Drained(events, at) =>
      InsertsOnlyAppend(w.rows, events, at);
      BatchIsNumbered(w.rows, events, at, j);
    case SentOne(unit, address, body, ts, now) =>
  }

  lemma {:induction false} BatchIsNumbered(rows: seq<Row>, events: seq<Event>, at: int, j: nat)
    requires |rows| + j < |AfterInserts(rows, events, at)|
    ensures AfterInserts(rows, events, at)[|rows| + j].id == LatestId(rows) + 1 + j
    ensures LatestId(AfterInserts(rows, events, at)) == LatestId(rows) + (|AfterInserts(rows, events, at)| - |rows|)
    decreases |events|
  {
    if events != [] {
      var mid := AfterInserts(rows, events[..|events| - 1], at);
      if |rows| + j < |mid| {
        BatchIsNumbered(rows, events[..|events| - 1], at, j);
      } else {
        NoneAddedOrNumbered(rows, events[..|events| - 1], at);
      }
    }
  }

  lemma {:induction false} NoneAddedOrNumbered(rows: seq<Row>, events: seq<Event>, at: int)
    ensures |AfterInserts(rows, events, at)| >= |rows|
    ensures LatestId(AfterInserts(rows, events, at)) == LatestId(rows) + (|AfterInserts(rows, events, at)| - |rows|)
  {
    if events != [] {
      NoneAddedOrNumbered(rows, events[..|events| - 1], at);
    }
  }

  lemma {:induction false} QuietRunKeepsTheCursor(w: Watch, steps: seq<Step>, config: Option<Capabilities>)
    requires Quiet(steps)
    ensures Run(w, steps, config).lastSeen == w.lastSeen && Run(w, steps, config).yielded == w.yielded
  {
    if steps != [] {
      assert steps[|steps| - 1] in steps;
      QuietRunKeepsTheCursor(w, steps[..|steps| - 1], config);
    }
  }

  /**
   * The exact condition for one new row, in any run: the first poll after its
   * insertion yields it if and only if pruning had not taken the table's newest
   * row back below the cursor by the time it was inserted, it is readable, it is
   * still there, and it is among the newest hundred.
   */
  lemma FirstPollYieldsIff(
    rows: seq<Row>, before: seq<Step>, insert: Step, between: seq<Step>, config: Option<Capabilities>, j: nat)
    requires ValidTable(rows) && Inserts(insert) && Quiet(between)
    requires var w := Run(Connected(rows), before, config);
             |w.rows| + j < |Next(w, insert, config).rows|
    ensures var w := Run(Connected(rows), before, config);
            var r := Next(w, insert, config).rows[|w.rows| + j];
            var w' := Run(Next(w, insert, config), between, config);
            r in Frames(w'.rows, w'.lastSeen, config) <==>
              && LatestId(w.rows) + j >= w.lastSeen
              && Readable(r, config)
              && r in w'.rows
              && Rank(w'.rows, r) < STREAM_BATCH_SIZE
  {
    var w := Run(Connected(rows), before, config);
    NoIdTwice(rows, before, config);
    AddedRowsAreNumbered(w, insert, config, j);
    TableStaysValid(w, insert, config);
    QuietRunKeepsTheCursor(Next(w, insert, config), between, config);
    TableStaysValidOver(Next(w, insert, config), between, config);
    var w' := Run(Next(w, insert, config), between, config);
    FramesAre(w'.rows, w'.lastSeen, config, Next(w, insert, config).rows[|w.rows| + j]);
  }

  lemma {:induction false} TableStaysValidOver(w: Watch, steps: seq<Step>, config: Option<Capabilities>)
    requires ValidTable(w.rows)
    ensures ValidTable(Run(w, steps, config).rows)
  {
    if steps != [] {
      TableStaysValidOver(w, steps[..|steps| - 1], config);
      TableStaysValid(Run(w, steps[..|steps| - 1], config), steps[|steps| - 1], config);
    }
  }

  lemma {:induction false} RunFromNext(w: Watch, step: Step, steps: seq<Step>, config: Option<Capabilities>)
    ensures Run(w, [step] + steps, config) == Run(Next(w, step, config), steps, config)
  {
    if steps == [] {
      assert [step] + steps == [step] && [step][..0] == [];
    } else {
      RunFromNext(w, step, steps[..|steps| - 1], config);
      assert ([step] + steps)[..|steps|] == [step] + steps[..|steps| - 1];
    }
  }

  /**
   * So a new row that meets the condition is yielded exactly once from its
   * insertion on, however the run goes on and whatever becomes of other rows.
   */
  lemma OwnConditionYieldsOnce(
    rows: seq<Row>, before: seq<Step>, insert: Step, between: seq<Step>, after: seq<Step>,
    config: Option<Capabilities>, j: nat)
    requires ValidTable(rows) && Inserts(insert) && Quiet(between)
    requires var w := Run(Connected(rows), before, config);
             |w.rows| + j < |Next(w, insert, config).rows|
    requires var w := Run(Connected(rows), before, config);
             var r := Next(w, insert, config).rows[|w.rows| + j];
             var w' := Run(Next(w, insert, config), between, config);
             && LatestId(w.rows) + j >= w.lastSeen && Readable(r, config)
             && r in w'.rows && Rank(w'.rows, r) < STREAM_BATCH_SIZE
    ensures var w := Run(Connected(rows), before, config);
            var steps := ([insert] + between) + ([Polled] + after);
            && w.yielded <= Run(w, steps, config).yielded
            && multiset(Run(w, steps, config).yielded[|w.yielded|..])[Next(w, insert, config).rows[|w.rows| + j]] == 1
  {
    var w := Run(Connected(rows), before, config);
    AddedRowsAreNumberedIn(rows, before, insert, config, j);
    var r := Next(w, insert, config).rows[|w.rows| + j];
    ShownAtTheFirstPoll(w, insert, between, after, config, r);
    YieldedOnceIffShown(rows, before, ([insert] + between) + ([Polled] + after), config, r);
  }

  lemma ShownAtTheFirstPoll(
    w: Watch, insert: Step, between: seq<Step>, after: seq<Step>, config: Option<Capabilities>, r: Row)
    requires Inserts(insert) && Quiet(between) && w.lastSeen < r.id && Readable(r, config)
    requires var w' := Run(Next(w, insert, config), between, config);
             r in w'.rows && Rank(w'.rows, r) < STREAM_BATCH_SIZE
    ensures Shown(w, ([insert] + between) + ([Polled] + after), config, r)
  {
    var steps := ([insert] + between) + ([Polled] + after);
    RunFromNext(w, insert, between, config);
    QuietRunKeepsTheCursor(Next(w, insert, config), between, config);
    assert steps[..|between| + 1] == [insert] + between && steps[|between| + 1] == Polled;
    assert ShownAt(w, steps, config, r, |between| + 1);
  }

  lemma AddedRowsAreNumberedIn(rows: seq<Row>, before: seq<Step>, insert: Step, config: Option<Capabilities>, j: nat)
    requires ValidTable(rows) && Inserts(insert)
    requires var w := Run(Connected(rows), before, config);
             |w.rows| + j < |Next(w, insert, config).rows|
    ensures var w := Run(Connected(rows), before, config);
            Next(w, insert, config).rows[|w.rows| + j].id == LatestId(w.rows) + 1 + j
  {
    NoIdTwice(rows, before, config);
    AddedRowsAreNumbered(Run(Connected(rows), before, config), insert, config, j);
  }

  /** And one inserted under an id the cursor has reached is not yielded by anything that follows. */
  lemma {:induction false} ReachedIdIsNeverYielded(
    w: Watch, steps: seq<Step>, config: Option<Capabilities>, r: Row)
    requires SeenBelowCursor(w) && r.id <= w.lastSeen
    ensures w.yielded <= Run(w, steps, config).yielded
    ensures r !in Run(w, steps, config).yielded[|w.yielded|..]
  {
    YieldedIffShown(w, steps, config, r);
    if k: nat :| ShownAt(w, steps, config, r, k) {
      CursorOnlyRises(w, steps[..k], config);
    }
  }

  lemma {:induction false} CursorOnlyRises(w: Watch, steps: seq<Step>, config: Option<Capabilities>)
    ensures w.lastSeen <= Run(w, steps, config).lastSeen
  {
    if steps != [] {
      CursorOnlyRises(w, steps[..|steps| - 1], config);
      var mid := Run(w, steps[..|steps| - 1], config);
      CursorIsHighest(mid.lastSeen, Frames(mid.rows, mid.lastSeen, config));
    }
  }

  // --------------------------------------------------------------- at least once

  /**
   * What the stream needs of its surroundings: pruning leaves the newest row in
   * place, and at a poll each readable row inserted since the last one is still
   * there and among the newest hundred.
   */
  ghost predicate Fair(w: Watch, step: Step, config: Option<Capabilities>) {
    match step
    case Pruned(retention, now) => LatestId(AfterPrune(w.rows, retention, now)) == LatestId(w.rows)
    case Polled =>
      forall r :: r in w.waiting && Readable(r, config) ==>
        r in w.rows && Rank(w.rows, r) < STREAM_BATCH_SIZE
    case _ => true
  }

  ghost predicate FairRun(w: Watch, steps: seq<Step>, config: Option<Capabilities>) {
    steps == []
    || (FairRun(w, steps[..|steps| - 1], config)
        && Fair(Run(w, steps[..|steps| - 1], config), steps[|steps| - 1], config))
  }

  ghost predicate UpToDate(w: Watch, config: Option<Capabilities>) {
    && SeenBelowCursor(w)
    && w.lastSeen <= LatestId(w.rows)
    && (forall r :: r in w.inserted ==> r.id <= LatestId(w.rows))
    && (forall r :: r in w.waiting ==> r in w.inserted && r.id > w.lastSeen)
    && (forall r :: r in w.rows && r !in w.waiting && Readable(r, config) ==> r.id <= w.lastSeen)
    && (forall r :: r in w.inserted && r !in w.waiting && Readable(r, config) ==> r in w.yielded)
    && (forall r :: r in w.yielded ==> r in w.inserted && Readable(r, config))
  }

  lemma AddedIdsAreAbove(rows: seq<Row>, more: seq<Row>)
    requires rows <= more && Ascending(more)
    ensures LatestId(rows) <= LatestId(more)
    ensures forall r :: r in more[|rows|..] ==> LatestId(rows) < r.id <= LatestId(more)
  {
    forall r | r in more
      ensures 1 <= r.id <= LatestId(more)
    {
      var i :| 0 <= i < |more| && more[i] == r;
    }
    if rows != [] {
      assert rows[|rows| - 1] == more[|rows| - 1];
      assert rows[|rows| - 1] in more;
    }
    forall r | r in more[|rows|..]
      ensures LatestId(rows) < r.id
    {
      var i :| 0 <= i < |more| - |rows| && more[|rows|..][i] == r;
      assert more[|rows| + i] == r;
    }
  }

  lemma GrowthKeepsUpToDate(w: Watch, rows: seq<Row>, config: Option<Capabilities>)
    requires UpToDate(w, config) && w.rows <= rows && ValidTable(rows)
    ensures UpToDate(Grown(w, rows), config)
  {
    var added := rows[|w.rows|..];
    AddedIdsAreAbove(w.rows, rows);
    assert forall r :: r in rows ==> r in w.rows || r in added by {
      assert rows == w.rows + added;
    }
  }

  lemma PollKeepsUpToDate(w: Watch, config: Option<Capabilities>)
    requires UpToDate(w, config) && Fair(w, Polled, config)
    ensures UpToDate(Next(w, Polled, config), config)
  {
    var frames := Frames(w.rows, w.lastSeen, config);
    var w' := Next(w, Polled, config);
    PollAppendsFresh(w, config);
    CursorIsHighest(w.lastSeen, frames);
    forall r
      ensures r in frames <==> r in w.waiting && Readable(r, config)
    {
      FramesAre(w.rows, w.lastSeen, config, r);
    }
  }

  lemma StepKeepsUpToDate(w: Watch, step: Step, config: Option<Capabilities>)
    requires UpToDate(w, config) && Fair(w, step, config)
    ensures UpToDate(Next(w, step, config), config)
  {
    match step
    case Drained(events, at) =>
      BatchAppendsExactlyTheNewOnes(w.rows, events, at);
      GrowthKeepsUpToDate(w, AfterInserts(w.rows, events, at), config);
    case SentOne(unit, address, body, ts, now) =>
      var sent := SentEvent(w.rows, unit, address, body, ts);
      InsertKeepsTable(w.rows, sent, now);
      GrowthKeepsUpToDate(w, AfterInsert(w.rows, sent, now), config);
    case Pruned(retention, now) => PruneRemovesExactlyTheExpired(w.rows, retention, now);
    case Polled => PollKeepsUpToDate(w, config);
  }

  lemma {:induction false} FairRunsStayUpToDate(rows: seq<Row>, steps: seq<Step>, config: Option<Capabilities>)
    requires ValidTable(rows) && FairRun(Connected(rows), steps, config)
    ensures UpToDate(Run(Connected(rows), steps, config), config)
  {
    if steps == [] {
      forall r | r in rows
        ensures r.id <= LatestId(rows)
      {
        var i :| 0 <= i < |rows| && rows[i] == r;
      }
    } else {
      FairRunsStayUpToDate(rows, steps[..|steps| - 1], config);
      StepKeepsUpToDate(Run(Connected(rows), steps[..|steps| - 1], config), steps[|steps| - 1], config);
    }
  }

  lemma {:induction false} OnceIfDistinct(rows: seq<Row>, r: Row)
    requires IdsDistinct(rows)
    ensures multiset(rows)[r] == if r in rows then 1 else 0
  {
    if rows != [] {
      assert rows == rows[..|rows| - 1] + [rows[|rows| - 1]];
      OnceIfDistinct(rows[..|rows| - 1], r);
    }
  }

  /**
   * In a fair run, a row is yielded exactly once if it is readable, was inserted
   * after the stream connected and a poll has followed; every other row never.
   */
  lemma EveryNewRowExactlyOnce(rows: seq<Row>, steps: seq<Step>, config: Option<Capabilities>, r: Row)
    requires ValidTable(rows) && FairRun(Connected(rows), steps, config)
    ensures var w := Run(Connected(rows), steps, config);
            multiset(w.yielded)[r]
            == if r in w.inserted && r !in w.waiting && Readable(r, config) then 1 else 0
  {
    FairRunsStayUpToDate(rows, steps, config);
    var w := Run(Connected(rows), steps, config);
    OnceIfDistinct(w.yielded, r);
    if r in w.yielded {
      assert r.id <= w.lastSeen;
    }
  }

  /**
   * Why the newest row must survive pruning: row ids are reused, so a row
   * inserted after the newest one was pruned can hide below the cursor.
   */
  lemma PrunedNewestRowHidesTheNextOne(r: Row, e: Event, now: int)
    requires r.id == 1 && r.event.kind == "sms" && e.kind == "sms"
    requires r.event.ts == None && r.receivedAt < now - 24 * 60 * 60
    ensures var steps := [Pruned([Policy("sms", 1)], now)] + [Drained([e], now)] + [Polled];
            var w := Run(Connected([r]), steps, None);
            && w.inserted == [Row(1, e, now)]
            && w.waiting == []
            && w.yielded == []
  {
    var w0 := Connected([r]);
    var p, d := Pruned([Policy("sms", 1)], now), Drained([e], now);
    assert [p][..0] == [] && ([p] + [d])[..1] == [p] && ([p] + [d] + [Polled])[..2] == [p] + [d];
    NewestExpires(r, now);
    assert Run(w0, [p], None) == Watch([], 1, [], [], []);
    OneInsert(e, now);
    assert Run(w0, [p] + [d], None) == Watch([Row(1, e, now)], 1, [], [Row(1, e, now)], [Row(1, e, now)]);
    var frames := Frames([Row(1, e, now)], 1, None);
    if frames != [] {
      FramesAre([Row(1, e, now)], 1, None, frames[0]);
    }
  }

  lemma NewestExpires(r: Row, now: int)
    requires r.event.kind == "sms" && r.event.ts == None && r.receivedAt < now - 24 * 60 * 60
    ensures AfterPrune([r], [Policy("sms", 1)], now) == []
  {
    var p := Policy("sms", 1);
    assert [p][..0] == [] && [r][..0] == [];
    assert ExpiredUnder(r, p, now);
    assert AfterDelete([r], p, now) == [];
    assert AfterPrune([r], [], now) == [r];
  }

  lemma OneInsert(e: Event, now: int)
    ensures AfterInserts([], [e], now) == [Row(1, e, now)]
  {
    assert [e][..0] == [];
    assert AfterInserts([], [], now) == [];
  }
}
