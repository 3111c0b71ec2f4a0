/**
 * Two device channels over one WebSocket (relay.py), tagged by their first byte.
 * Each channel is copied by a loop of its own; the first loop to end, or the
 * client leaving, makes the pump cancel the others.
 */
module Relay {
  /** Bytes are only compared here, so any numbers do. */
  type Byte = int
  type Bytes = seq<Byte>

  const READ_SIZE := 64 * 1024
  const VIDEO_CHANNEL: Byte := 0
  const CONTROL_CHANNEL: Byte := 1

  datatype Channel = Video | Control

  function Tag(channel: Channel): Byte {
    match channel
    case Video => VIDEO_CHANNEL
    case Control => CONTROL_CHANNEL
  }

  function Tagged(tag: Byte, data: Bytes): Bytes {
    [tag] + data
  }

  /** What a reader of tagged messages collects for one channel. */
  function Collected(messages: seq<Bytes>, tag: Byte): Bytes {
    if messages == [] then []
    else
      var last := messages[|messages| - 1];
      Collected(messages[..|messages| - 1], tag) + (if last != [] && last[0] == tag then last[1..] else [])
  }

  /** The messages of one channel. */
  function Projected(messages: seq<Bytes>, tag: Byte): seq<Bytes> {
    if messages == [] then []
    else
      var last := messages[|messages| - 1];
      Projected(messages[..|messages| - 1], tag) + (if last != [] && last[0] == tag then [last] else [])
  }

  /** What one channel's loop sends for the reads it gets: an empty read ends it. */
  function Copied(tag: Byte, arrivals: seq<Bytes>): seq<Bytes> {
    if arrivals == [] || arrivals[0] == [] then [] else [Tagged(tag, arrivals[0])] + Copied(tag, arrivals[1..])
  }

  function Joined(chunks: seq<Bytes>): Bytes {
    if chunks == [] then [] else Joined(chunks[..|chunks| - 1]) + chunks[|chunks| - 1]
  }

  // ------------------------------------------------------------------ the pump

  /** A loop: the chunks it has read, whether it still holds the last one, and whether it is over. */
  datatype Loop = Loop(chunks: seq<Bytes>, holding: bool, over: bool) {
    function Sent(): seq<Bytes> {
      if holding && chunks != [] then chunks[..|chunks| - 1] else chunks
    }
  }

  datatype Pump = Pump(video: Loop, control: Loop, sent: seq<Bytes>, left: bool, cut: bool) {
    function Of(channel: Channel): Loop {
      match channel
      case Video => video
      case Control => control
    }

    function With(channel: Channel, loop: Loop): Pump {
      match channel
      case Video => this.(video := loop)
      case Control => this.(control := loop)
    }

    function Sending(message: Bytes): Pump {
      this.(sent := sent + [message])
    }

    /** Some task has ended: one of the loops, or one on the client's side. */
    predicate Ending() {
      video.over || control.over || left
    }
  }

  const IDLE := Loop([], false, false)
  const OPENED := Pump(IDLE, IDLE, [], false, false)

  /** All that the device ever writes to each channel. */
  datatype Device = Device(video: Bytes, control: Bytes) {
    function Of(channel: Channel): Bytes {
      match channel
      case Video => video
      case Control => control
    }
  }

  /** A cancelled or failing loop drops the chunk it holds. */
  datatype Step =
    | Took(channel: Channel, size: nat)
    | Delivered(channel: Channel)
    | ReadEnd(channel: Channel)
    | Broke(channel: Channel)
    | ClientLeft
    | Cut

  /** A read takes the next bytes the device has written, at most READ_SIZE of them. */
  function AfterTook(loop: Loop, incoming: Bytes, size: nat): Loop {
    var at := |Joined(loop.chunks)|;
    if loop.over || loop.holding || size == 0 || size > READ_SIZE || at + size > |incoming| then loop
    else loop.(chunks := loop.chunks + [incoming[at..at + size]], holding := true)
  }

  predicate Delivers(loop: Loop) {
    !loop.over && loop.holding && loop.chunks != []
  }

  /** An empty read comes only once everything has been read. */
  function AfterReadEnd(loop: Loop, incoming: Bytes): Loop {
    if loop.holding || |Joined(loop.chunks)| < |incoming| then loop else loop.(over := true)
  }

  function Next(p: Pump, device: Device, step: Step): Pump {
    if p.cut then p
    else
      match step
      case Took(channel, size) => p.With(channel, AfterTook(p.Of(channel), device.Of(channel), size))
      case Delivered(channel) =>
        var loop := p.Of(channel);
        if Delivers(loop)
        then p.With(channel, loop.(holding := false)).Sending(Tagged(Tag(channel), loop.chunks[|loop.chunks| - 1]))
        else p
      case ReadEnd(channel) => p.With(channel, AfterReadEnd(p.Of(channel), device.Of(channel)))
      case Broke(channel) => p.With(channel, p.Of(channel).(over := true))
      case ClientLeft => p.(left := true)
      case Cut => if p.Ending() then p.(cut := true) else p
  }

  function Run(device: Device, steps: seq<Step>): Pump {
    if steps == [] then OPENED else Next(Run(device, steps[..|steps| - 1]), device, steps[|steps| - 1])
  }

  ghost predicate LoopValid(loop: Loop, sent: seq<Bytes>, tag: Byte, incoming: Bytes) {
    && (forall c :: c in loop.chunks ==> 0 < |c| <= READ_SIZE)
    && (loop.holding ==> loop.chunks != [])
    && Joined(loop.chunks) <= incoming
    && Projected(sent, tag) == Copied(tag, loop.Sent())
    && Collected(sent, tag) == Joined(loop.Sent())
  }

  ghost predicate Valid(p: Pump, device: Device, channel: Channel) {
    LoopValid(p.Of(channel), p.sent, Tag(channel), device.Of(channel))
  }

  lemma JoinedAppend(chunks: seq<Bytes>, c: Bytes)
    ensures Joined(chunks + [c]) == Joined(chunks) + c
  {
    assert (chunks + [c])[..|chunks|] == chunks;
  }

  lemma {:induction false} CopiedAppend(tag: Byte, chunks: seq<Bytes>, c: Bytes)
    requires c != [] && forall x :: x in chunks ==> x != []
    ensures Copied(tag, chunks + [c]) == Copied(tag, chunks) + [Tagged(tag, c)]
  {
    if chunks == [] {
      assert chunks + [c] == [c];
    } else {
      assert chunks[0] in chunks;
      assert forall x :: x in chunks[1..] ==> x in chunks;
      CopiedAppend(tag, chunks[1..], c);
      assert (chunks + [c])[1..] == chunks[1..] + [c];
    }
  }

  lemma MessageAppend(messages: seq<Bytes>, of: Byte, c: Bytes, tag: Byte)
    ensures Collected(messages + [Tagged(of, c)], tag) == Collected(messages, tag) + (if of == tag then c else [])
    ensures Projected(messages + [Tagged(of, c)], tag)
            == Projected(messages, tag) + (if of == tag then [Tagged(of, c)] else [])
  {
    var m := Tagged(of, c);
    assert (messages + [m])[..|messages|] == messages;
    assert m[1..] == c;
  }

  lemma TakingKeeps(loop: Loop, sent: seq<Bytes>, tag: Byte, incoming: Bytes, size: nat)
    requires LoopValid(loop, sent, tag, incoming)
    ensures LoopValid(AfterTook(loop, incoming, size), sent, tag, incoming)
  {
    if AfterTook(loop, incoming, size) != loop {
      var at := |Joined(loop.chunks)|;
      var c := incoming[at..at + size];
      JoinedAppend(loop.chunks, c);
      assert Joined(loop.chunks) == incoming[..at];
      assert incoming[..at] + c == incoming[..at + size];
      assert (loop.chunks + [c])[..|loop.chunks|] == loop.chunks;
    }
  }

  lemma DeliveringKeeps(loop: Loop, sent: seq<Bytes>, tag: Byte, incoming: Bytes)
    requires LoopValid(loop, sent, tag, incoming) && Delivers(loop)
    ensures LoopValid(loop.(holding := false), sent + [Tagged(tag, loop.chunks[|loop.chunks| - 1])], tag, incoming)
  {
    var init, c := loop.chunks[..|loop.chunks| - 1], loop.chunks[|loop.chunks| - 1];
    assert loop.chunks == init + [c];
    MessageAppend(sent, tag, c, tag);
    JoinedAppend(init, c);
    CopiedAppend(tag, init, c);
  }

  lemma OthersMessageKeeps(loop: Loop, sent: seq<Bytes>, of: Byte, c: Bytes, tag: Byte, incoming: Bytes)
    requires LoopValid(loop, sent, tag, incoming) && of != tag
    ensures LoopValid(loop, sent + [Tagged(of, c)], tag, incoming)
  {
    MessageAppend(sent, of, c, tag);
  }

  lemma DeliveredKeeps(p: Pump, device: Device, of: Channel, channel: Channel)
    requires Valid(p, device, channel) && !p.cut && Delivers(p.Of(of))
    ensures Valid(Next(p, device, Delivered(of)), device, channel)
  {
    var loop := p.Of(of);
    var p' := Next(p, device, Delivered(of));
    var c := loop.chunks[|loop.chunks| - 1];
    assert p'.sent == p.sent + [Tagged(Tag(of), c)];
    if of == channel {
      DeliveringKeeps(loop, p.sent, Tag(of), device.Of(of));
      assert p'.Of(channel) == loop.(holding := false);
    } else {
      OthersMessageKeeps(p.Of(channel), p.sent, Tag(of), c, Tag(channel), device.Of(channel));
      assert p'.Of(channel) == p.Of(channel);
    }
  }

  lemma NextKeeps(p: Pump, device: Device, step: Step, channel: Channel)
    requires Valid(p, device, channel)
    ensures Valid(Next(p, device, step), device, channel)
  {
    if !p.cut {
      match step
      case Took(of, size) =>
        if of == channel {
          TakingKeeps(p.Of(of), p.sent, Tag(of), device.Of(of), size);
        }
      case Delivered(of) =>
        if Delivers(p.Of(of)) {
          DeliveredKeeps(p, device, of, channel);
        }
      case ReadEnd(of) => EndingKeeps(p.Of(of), p.sent, Tag(of), device.Of(of));
      case Broke(of) => EndingKeeps(p.Of(of), p.sent, Tag(of), device.Of(of));
      case ClientLeft =>
      case Cut =>
    }
  }

  lemma EndingKeeps(loop: Loop, sent: seq<Bytes>, tag: Byte, incoming: Bytes)
    ensures LoopValid(loop, sent, tag, incoming) ==> LoopValid(loop.(over := true), sent, tag, incoming)
  {}

  lemma {:induction false} RunKeeps(device: Device, steps: seq<Step>, channel: Channel)
    ensures Valid(Run(device, steps), device, channel)
  {
    if steps != [] {
      RunKeeps(device, steps[..|steps| - 1], channel);
      NextKeeps(Run(device, steps[..|steps| - 1]), device, steps[|steps| - 1], channel);
    }
  }

  /**
   * However the loops interleave and wherever the first end of anything cuts them:
   * the client has of each channel exactly what its loop read and sent, which is a
   * prefix of what the device wrote and lacks at most one read of what was taken
   * from it; and it has the whole of it exactly if all was read and nothing is held.
   */
  lemma ClientGetsAPrefix(device: Device, steps: seq<Step>, channel: Channel)
    ensures var p := Run(device, steps); var loop := p.Of(channel); var got := Collected(p.sent, Tag(channel));
            && Projected(p.sent, Tag(channel)) == Copied(Tag(channel), loop.Sent())
            && Tag(channel) == (if channel.Video? then 0 else 1)
            && got == Joined(loop.Sent())
            && got <= Joined(loop.chunks) <= device.Of(channel)
            && |Joined(loop.chunks)| <= |got| + 65_536
            && (got == device.Of(channel) <==> |Joined(loop.chunks)| == |device.Of(channel)| && !loop.holding)
  {
    RunKeeps(device, steps, channel);
    var p := Run(device, steps);
    SentIsAPrefix(p.Of(channel), p.sent, Tag(channel), device.Of(channel));
  }

  lemma {:induction false} OverOnceAllIsSent(device: Device, steps: seq<Step>, channel: Channel)
    requires Broke(channel) !in steps
    ensures var loop := Run(device, steps).Of(channel);
            loop.over ==> !loop.holding && |Joined(loop.chunks)| >= |device.Of(channel)|
  {
    if steps != [] {
      OverOnceAllIsSent(device, steps[..|steps| - 1], channel);
      assert steps[|steps| - 1] in steps;
    }
  }

  /** A loop that did not break ends only once the client has all the device wrote to its channel. */
  lemma EndedLoopSentAll(device: Device, steps: seq<Step>, channel: Channel)
    requires Broke(channel) !in steps && Run(device, steps).Of(channel).over
    ensures Collected(Run(device, steps).sent, Tag(channel)) == device.Of(channel)
  {
    OverOnceAllIsSent(device, steps, channel);
    ClientGetsAPrefix(device, steps, channel);
  }

  lemma SentIsAPrefix(loop: Loop, sent: seq<Bytes>, tag: Byte, incoming: Bytes)
    requires LoopValid(loop, sent, tag, incoming)
    ensures Joined(loop.Sent()) <= Joined(loop.chunks)
    ensures |Joined(loop.chunks)| <= |Joined(loop.Sent())| + READ_SIZE
    ensures Joined(loop.Sent()) == incoming <==> |Joined(loop.chunks)| == |incoming| && !loop.holding
  {
    if loop.holding {
      var init, c := loop.chunks[..|loop.chunks| - 1], loop.chunks[|loop.chunks| - 1];
      assert loop.chunks == init + [c];
      JoinedAppend(init, c);
      assert c in loop.chunks;
    }
  }

  /** Nothing is sent after the cut, and there is no cut before something has ended. */
  lemma {:induction false} NothingAfterTheCut(device: Device, steps: seq<Step>, more: seq<Step>)
    ensures Run(device, steps).cut ==> Run(device, steps + more) == Run(device, steps)
    ensures Run(device, steps).cut ==> Run(device, steps).Ending()
  {
    if more != [] {
      NothingAfterTheCut(device, steps, more[..|more| - 1]);
      assert (steps + more)[..|steps + more| - 1] == steps + more[..|more| - 1];
    } else {
      assert steps + more == steps;
      CutNeedsAnEnd(device, steps);
    }
  }

  lemma {:induction false} CutNeedsAnEnd(device: Device, steps: seq<Step>)
    ensures Run(device, steps).cut ==> Run(device, steps).Ending()
  {
    if steps != [] {
      CutNeedsAnEnd(device, steps[..|steps| - 1]);
    }
  }

  /** The end of one channel can cost the client what the other had already been read of. */
  lemma OneEndCutsTheOther(data: Bytes)
    requires 0 < |data| <= READ_SIZE
    ensures var p := Run(Device(data, []), [Took(Video, |data|)] + [ReadEnd(Control)] + [Cut]);
            p.cut && Joined(p.video.chunks) == data && Collected(p.sent, VIDEO_CHANNEL) == []
  {
    var device := Device(data, []);
    var took, end := Took(Video, |data|), ReadEnd(Control);
    assert [took][..0] == [] && ([took] + [end])[..1] == [took] && ([took] + [end] + [Cut])[..2] == [took] + [end];
    assert Run(device, []) == OPENED;
    assert Run(device, [took]).video == Loop([data[0..|data|]], true, false);
    assert data[0..|data|] == data;
    JoinedAppend([], data);
    assert [] + [data] == [data];
  }

  class ScreenRelay {
    var written: map<Byte, Bytes>

    /** Open: one writer per channel. */
    constructor ()
      ensures written == map[VIDEO_CHANNEL := [], CONTROL_CHANNEL := []]
    {
      written := map[VIDEO_CHANNEL := [], CONTROL_CHANNEL := []];
    }

    /** Copy one channel until its reader ends. */
    method DeviceToClient(tag: Byte, arrivals: seq<Bytes>) returns (sent: seq<Bytes>)
      ensures sent == Copied(tag, arrivals)
    {
      sent := [];
      var i := 0;
      while i < |arrivals| && arrivals[i] != []
        invariant 0 <= i <= |arrivals|
        invariant sent + Copied(tag, arrivals[i..]) == Copied(tag, arrivals)
      {
        assert arrivals[i..][1..] == arrivals[i + 1..];
        sent := sent + [Tagged(tag, arrivals[i])];
        i := i + 1;
      }
      assert Copied(tag, arrivals[i..]) == [];
    }

    /** Dispatch the client's messages; empty ones and unknown channels are ignored. */
    method ClientToDevice(messages: seq<Bytes>)
      requires written.Keys == {VIDEO_CHANNEL, CONTROL_CHANNEL}
      modifies this
      ensures written.Keys == old(written).Keys
      ensures forall c :: c in written ==> written[c] == old(written)[c] + Collected(messages, c)
    {
      for i := 0 to |messages|
        invariant written.Keys == old(written).Keys
        invariant forall c :: c in written ==> written[c] == old(written)[c] + Collected(messages[..i], c)
      {
        assert messages[..i + 1][..i] == messages[..i];
        var data := messages[i];
        ghost var was := written;
        if data != [] && data[0] in written {
          written := written[data[0] := written[data[0]] + data[1..]];
        }
        forall c | c in written
          ensures written[c] == old(written)[c] + Collected(messages[..i + 1], c)
        {
          JoinsAssociate(old(written)[c], Collected(messages[..i], c),
                         if data != [] && data[0] == c then data[1..] else []);
          assert written[c] == was[c] + (if data != [] && data[0] == c then data[1..] else []);
        }
      }
      assert messages[..|messages|] == messages;
    }
  }

  lemma JoinsAssociate(a: Bytes, b: Bytes, c: Bytes)
    ensures a + (b + c) == (a + b) + c
  {}
}
