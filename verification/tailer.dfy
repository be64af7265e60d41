/** Tailing one log path: open handles read in bounded portions, rotated files drained after
    their replacement appears, rewritten files read again from the start. */
module Tailing {
  import opened Wrappers
  import opened Collections
  import opened Counters
  import opened LineSplitting

  const ANCHOR_BYTES: nat := 64
  const RETIRED_IDLE_POLLS: nat := 2

  datatype StartAt = Beginning | End

  /** An inode: it outlives the names it is reached by. */
  class LogFile {
    var content: seq<byte>
    var modified: int
    const regular: bool

    constructor (content: seq<byte>, modified: int, regular: bool)
      ensures this.content == content && this.modified == modified && this.regular == regular
    {
      this.content, this.modified, this.regular := content, modified, regular;
    }
  }

  function Min(a: nat, b: nat): nat {
    if a < b then a else b
  }

  /** The up to 64 bytes before an offset. */
  function AnchorAt(content: seq<byte>, offset: nat): seq<byte>
    requires offset <= |content|
  {
    content[offset - Min(offset, ANCHOR_BYTES)..offset]
  }

  /** A handle's position and automaton state. */
  datatype FileView = FileView(
    offset: nat, state: LineState, anchor: seq<byte>, lastLen: nat, lastModified: int, idlePolls: nat)

  datatype HandleBefore = HandleBefore(view: FileView, emitted: seq<Line>, tracks: bool, anchored: bool)

  class OpenFile {
    const file: LogFile
    var offset: nat
    var pending: Line
    var anchor: seq<byte>
    var lastLen: nat
    var lastModified: int
    var idlePolls: nat
    var discarding: bool
    var dropped: u64
    // Where this handle began, and what it has emitted since.
    ghost var start: nat
    ghost var base: u64
    ghost var emitted: seq<Line>

    function State(): LineState
      reads this
    {
      LineState(pending, discarding, dropped)
    }

    function View(): FileView
      reads this
    {
      FileView(offset, State(), anchor, lastLen, lastModified, idlePolls)
    }

    /** What has been emitted and what is held back is the one-shot splitting of the bytes
        consumed so far. */
    ghost predicate Tracks(limit: nat)
      reads this, file
    {
      && start <= offset <= |file.content|
      && State() == StateAfter(file.content[start..offset], limit, base)
      && emitted == Kept(CutLines(file.content[start..offset]).lines, limit)
    }

    /** Everything consumed has been handed out, an unterminated last line included; only lines
        too long are missing. */
    ghost predicate Finished(limit: nat)
      reads this, file
    {
      && start <= offset <= |file.content|
      && emitted == Kept(WholeLines(file.content[start..offset]), limit)
    }

    /** What a poll has to know of a handle before its turn. */
    ghost function Before(limit: nat): HandleBefore
      reads this, file
    {
      HandleBefore(View(), emitted, Tracks(limit), Anchored())
    }

    /** The remembered anchor is the text before the offset. */
    ghost predicate Anchored()
      reads this, file
    {
      offset <= |file.content| && anchor == AnchorAt(file.content, offset)
    }

    constructor Open(file: LogFile, startAt: StartAt)
      ensures this.file == file && idlePolls == 0 && pending == [] && emitted == []
      ensures offset == (if startAt.Beginning? then 0 else |file.content|)
      ensures start == offset && Anchored() && forall limit :: Tracks(limit)
      ensures lastLen == |file.content| && lastModified == file.modified
    {
      this.file := file;
      var at := if startAt.Beginning? then 0 else |file.content|;
      offset, start := at, at;
      anchor := AnchorAt(file.content, at);
      lastLen, lastModified := |file.content|, file.modified;
      pending, discarding, dropped, idlePolls := [], false, 0, 0;
      base, emitted := 0, [];
      new;
      forall limit ensures Tracks(limit) {
        NothingRead(file.content, at, 0, limit);
      }
    }

    /** Start over at the first byte; the count of dropped lines goes on. */
    method Reset()
      modifies this
      ensures View() == FileView(0, LineState([], false, old(dropped)), [], |file.content|, file.modified, 0)
      ensures start == 0 && emitted == [] && base == old(dropped)
      ensures Anchored() && forall limit :: Tracks(limit)
    {
      hide CutLines, Kept, StateAfter, AnchorAt;
      AnchorAtStart(file.content);
      offset, pending, anchor := 0, [], [];
      lastLen, lastModified := |file.content|, file.modified;
      idlePolls, discarding := 0, false;
      start, base, emitted := 0, dropped, [];
      forall limit ensures Tracks(limit) {
        NothingRead(file.content, 0, dropped, limit);
      }
    }

    /** A file is taken for rewritten when it is shorter than what was read, or when it changed
        and the text before the offset is no longer the anchor. */
    ghost predicate Rewritten()
      reads this, file
    {
      || |file.content| < offset
      || (!(|file.content| == lastLen && file.modified == lastModified)
          && anchor != []
          && (|anchor| > offset || file.content[offset - |anchor|..offset] != anchor))
    }

    method WasRewritten() returns (rewritten: bool)
      ensures rewritten <==> Rewritten()
      ensures Anchored() ==> !rewritten
    {
      if |file.content| < offset {
        return true;
      }
      if |file.content| == lastLen && file.modified == lastModified {
        return false;
      }
      if anchor == [] {
        return false;
      }
      if |anchor| > offset {
        return true;
      }
      rewritten := file.content[offset - |anchor|..offset] != anchor;
    }

    /** Take the next byte; a completed line comes out. */
    method Consume(byte: byte, limit: nat) returns (out: seq<Line>)
      modifies this`offset, this`pending, this`discarding, this`dropped, this`emitted
      ensures offset == old(offset) + 1
      ensures State() == Fed(old(State()), byte, limit)
      ensures out == Emitted(old(State()), byte) && emitted == old(emitted) + out
    {
      out := [];
      offset := offset + 1;
      if discarding {
        if byte == LF {
          discarding := false;
        }
      } else if byte == LF {
        out := [TrimLineEnding(pending)];
        pending := [];
      } else if |pending| < limit {
        pending := pending + [byte];
      } else {
        pending := [];
        discarding := true;
        dropped := SatAdd(dropped, 1);
      }
      emitted := emitted + out;
    }

    /** Read at most `maxBytes` bytes and hand out lines until `output` holds `maxLines`. */
    method ReadCompleteLines(output: seq<Line>, maxBytes: nat, maxLines: nat, limit: nat)
      returns (lines: seq<Line>, readAny: bool, consumed: nat)
      modifies this
      ensures start == old(start) && base == old(base) && idlePolls == old(idlePolls)
      ensures consumed <= maxBytes && offset == old(offset) + consumed
      ensures consumed > 0 ==> offset <= |file.content|
      ensures lines == output + EmittedAll(old(State()), Between(file.content, old(offset), offset), limit)
      ensures emitted == old(emitted) + EmittedAll(old(State()), Between(file.content, old(offset), offset), limit)
      ensures State() == FedAll(old(State()), Between(file.content, old(offset), offset), limit)
      ensures |output| <= maxLines ==> |lines| <= maxLines
      ensures readAny <==> maxBytes > 0 && old(offset) < |file.content|
      ensures readAny && |output| < maxLines ==> consumed > 0
      ensures !readAny ==> consumed == 0
      ensures old(Tracks(limit)) ==> Tracks(limit)
      ensures if readAny then Anchored() else anchor == old(anchor)
      ensures lastLen == |file.content| && lastModified == file.modified
    {
      hide FedAll, EmittedAll, Between, StateAfter, Kept, CutLines, AnchorAt, Fed;
      var available := if offset < |file.content| then Min(maxBytes, |file.content| - offset) else 0;
      var count: nat :| count <= available && (count == 0 <==> available == 0);
      readAny := count > 0;
      lines, consumed := output, 0;
      ghost var st0, offset0 := State(), offset;
      NothingBetween(file.content, offset0, st0, limit);
      while consumed < count && |lines| < maxLines
        invariant consumed <= count && offset == offset0 + consumed
        invariant lines == output + EmittedAll(st0, Between(file.content, offset0, offset), limit)
        invariant emitted == old(emitted) + EmittedAll(st0, Between(file.content, offset0, offset), limit)
        invariant State() == FedAll(st0, Between(file.content, offset0, offset), limit)
        invariant |output| <= maxLines ==> |lines| <= maxLines
        invariant count > 0 && |output| < maxLines && consumed == 0 ==> |lines| < maxLines
        invariant start == old(start) && base == old(base) && idlePolls == old(idlePolls) && anchor == old(anchor)
      {
        var byte := file.content[offset];
        OneMoreByte(file.content, offset0, offset, st0, limit);
        consumed := consumed + 1;
        var out := Consume(byte, limit);
        lines := lines + out;
      }
      lastLen, lastModified := |file.content|, file.modified;
      if readAny {
        anchor := AnchorAt(file.content, offset);
      }
      if old(Tracks(limit)) {
        TracksOn(file.content, start, offset0, offset, limit, base);
      }
    }

    /** The current file's part of a poll. */
    method ReadPart(output: seq<Line>, bytes: nat, maxLines: nat, limit: nat)
      returns (lines: seq<Line>, ghost part: seq<Line>, ghost used: nat)
      requires |output| <= maxLines
      modifies this
      ensures lines == output + part && |lines| <= maxLines && used <= bytes
      ensures PartRead(file.content, old(View()), bytes, maxLines - |output|, limit, View(), part, used)
      ensures emitted == old(emitted) + part
      ensures old(Tracks(limit)) ==> Tracks(limit)
      ensures old(Anchored()) ==> Anchored()
    {
      hide FedAll, EmittedAll, Between, StateAfter, Kept, CutLines, AnchorAt, Fed;
      lines, part, used := output, [], 0;
      if bytes > 0 && |output| < maxLines {
        ghost var was := View();
        var readAny, consumed;
        lines, readAny, consumed := ReadCompleteLines(output, bytes, maxLines, limit);
        part, used := lines[|output|..], consumed;
        if !readAny {
          NothingBetween(file.content, offset, was.state, limit);
        }
        assert Portion(file.content, was, bytes, maxLines - |output|, limit, View(), part, used, readAny);
      }
    }

    /** A retired handle's turn in a poll. */
    method Serve(output: seq<Line>, bytes: nat, maxLines: nat, limit: nat)
      returns (lines: seq<Line>, used: nat, kept: bool, ghost part: seq<Line>)
      requires |output| <= maxLines
      modifies this
      ensures lines == output + part && |lines| <= maxLines && used <= bytes
      ensures Served(file.content, old(View()), bytes, maxLines - |output|, limit, View(), part, used, kept)
      ensures emitted == old(emitted) + part
      ensures old(Tracks(limit)) ==> if kept then Tracks(limit) else Finished(limit)
      ensures old(Anchored()) ==> Anchored()
    {
      hide FedAll, EmittedAll, Between, StateAfter, Kept, CutLines, AnchorAt, Fed, WholeLines;
      lines, used, kept, part := output, 0, true, [];
      if bytes == 0 || |output| >= maxLines {
        return;
      }
      ghost var was := View();
      var readAny;
      lines, readAny, used := ReadCompleteLines(output, bytes, maxLines, limit);
      part := lines[|output|..];
      if !readAny {
        NothingBetween(file.content, offset, was.state, limit);
      }
      ghost var mid, new' := View(), part;
      assert Portion(file.content, was, bytes, maxLines - |output|, limit, mid, new', used, readAny);
      idlePolls := if readAny then 0 else idlePolls + 1;
      kept := idlePolls < RETIRED_IDLE_POLLS;
      if !kept && pending != [] {
        lines, part := lines + [TrimLineEnding(pending)], part + [TrimLineEnding(pending)];
        emitted := emitted + [TrimLineEnding(pending)];
        pending := [];
      }
      assert Closing(mid, new', readAny, View(), part, kept);
      if !kept && old(Tracks(limit)) {
        ClosedIsFinished(file.content, start, was, base, old(emitted), bytes, maxLines - |output|, limit, View(), part,
                         used);
      }
    }

    /** The same, after the turns already taken in this poll. */
    method ServeRetired(output: seq<Line>, bytes: nat, maxLines: nat, ghost turns: seq<Turn>, ghost maxBytes: nat,
                        limit: nat)
      returns (lines: seq<Line>, used: nat, kept: bool, ghost part: seq<Line>)
      requires output == HandedOut(turns) && |output| <= maxLines && bytes + BytesUsed(turns) == maxBytes
      modifies this
      ensures lines == output + part && |lines| <= maxLines && used <= bytes
      ensures Turned(this, old(Before(limit)), turns + [Turn(part, used, kept)], |turns|, maxBytes, maxLines, limit)
    {
      hide Served, Turned, Tracks, Finished, Anchored, HandedOut, BytesUsed;
      lines, used, kept, part := Serve(output, bytes, maxLines, limit);
      LastTurn(this, old(Before(limit)), turns, Turn(part, used, kept), maxBytes, maxLines, limit);
    }
  }

  /** The lines of a text, an unterminated last one included. */
  function WholeLines(bytes: seq<byte>): seq<Line> {
    var cut := CutLines(bytes);
    cut.lines + if cut.tail == [] then [] else [cut.tail]
  }

  lemma AnchorAtStart(content: seq<byte>)
    ensures AnchorAt(content, 0) == []
  {
  }

  lemma NothingRead(content: seq<byte>, at: nat, dropped: u64, limit: nat)
    requires at <= |content|
    ensures content[at..at] == [] && CutLines(content[at..at]).lines == []
    ensures StateAfter(content[at..at], limit, dropped) == IDLE.(dropped := dropped)
    ensures Kept(CutLines(content[at..at]).lines, limit) == []
  {
  }

  /** A handle on a file that only grew still agrees with it, so it is not judged rewritten. */
  twostate lemma GrowthKeeps(h: OpenFile, limit: nat)
    requires unchanged(h) && old(h.file.content) <= h.file.content
    ensures old(h.Tracks(limit)) ==> h.Tracks(limit)
    ensures old(h.Anchored()) ==> h.Anchored()
  {
    var was, now := old(h.file.content), h.file.content;
    if h.start <= h.offset <= |was| {
      assert now[h.start..h.offset] == was[h.start..h.offset];
    }
    if h.offset <= |was| {
      assert AnchorAt(now, h.offset) == AnchorAt(was, h.offset);
    }
  }

  // ---------- One path over time ----------

  /** What one bounded read does to a handle. */
  ghost predicate Portion(content: seq<byte>, v: FileView, bytes: nat, room: nat, limit: nat,
                          v': FileView, part: seq<Line>, consumed: nat, readAny: bool) {
    && v'.offset == v.offset + consumed && consumed <= bytes && |part| <= room
    && part == EmittedAll(v.state, Between(content, v.offset, v'.offset), limit)
    && v'.state == FedAll(v.state, Between(content, v.offset, v'.offset), limit)
    && v'.idlePolls == v.idlePolls
    && (readAny <==> bytes > 0 && v.offset < |content|)
    && (consumed > 0 ==> v'.offset <= |content|)
    && (readAny && room > 0 ==> consumed > 0)
    && (if readAny then v'.offset <= |content| && v'.anchor == AnchorAt(content, v'.offset) else v'.anchor == v.anchor)
  }

  /** What a poll does to a retired handle with the budget left when its turn comes: nothing
      without budget; otherwise a bounded read, and after two polls in a row that found
      nothing the handle is closed and its unterminated tail handed out as a line. */
  ghost predicate Served(content: seq<byte>, v: FileView, bytes: nat, room: nat, limit: nat,
                         v': FileView, part: seq<Line>, consumed: nat, kept: bool) {
    if bytes == 0 || room == 0 then
      v' == v && part == [] && consumed == 0 && kept
    else
      exists mid, new', readAny ::
        && Portion(content, v, bytes, room, limit, mid, new', consumed, readAny)
        && Closing(mid, new', readAny, v', part, kept)
  }

  ghost predicate Closing(mid: FileView, new': seq<Line>, readAny: bool, v': FileView, part: seq<Line>, kept: bool) {
    var idle := if readAny then 0 else mid.idlePolls + 1;
    && kept == (idle < RETIRED_IDLE_POLLS)
    && (if kept then v' == mid.(idlePolls := idle) && part == new'
        else
          && v' == mid.(idlePolls := idle, state := mid.state.(pending := []))
          && part == new' + if mid.state.pending == [] then [] else [TrimLineEnding(mid.state.pending)])
  }

  /** What a poll does to the current file with the budget left for it. */
  ghost predicate PartRead(content: seq<byte>, v: FileView, bytes: nat, room: nat, limit: nat,
                           v': FileView, part: seq<Line>, used: nat) {
    if bytes == 0 || room == 0 then
      v' == v && part == [] && used == 0
    else
      exists readAny :: Portion(content, v, bytes, room, limit, v', part, used, readAny)
  }

  /** A handle closes only at the end of its file, at its second idle poll in a row, and then
      everything up to the end has been handed out or was too long. */
  lemma ClosesOnlyDrained(content: seq<byte>, v: FileView, bytes: nat, room: nat, limit: nat,
                          v': FileView, part: seq<Line>, consumed: nat)
    requires Served(content, v, bytes, room, limit, v', part, consumed, false)
    ensures bytes > 0 && room > 0 && v.offset >= |content| && consumed == 0 && v.idlePolls >= 1
    ensures v'.offset == v.offset
    ensures part == if v.state.pending == [] then [] else [TrimLineEnding(v.state.pending)]
  {
  }

  /** What was done to one retired handle. */
  datatype Turn = Turn(part: seq<Line>, used: nat, kept: bool)

  function HandedOut(turns: seq<Turn>): seq<Line> {
    if turns == [] then [] else HandedOut(turns[..|turns| - 1]) + turns[|turns| - 1].part
  }

  function BytesUsed(turns: seq<Turn>): nat {
    if turns == [] then 0 else BytesUsed(turns[..|turns| - 1]) + turns[|turns| - 1].used
  }

  function StillOpen(handles: seq<OpenFile>, turns: seq<Turn>): seq<OpenFile>
    requires |turns| <= |handles|
  {
    if turns == [] then [] else
      StillOpen(handles, turns[..|turns| - 1]) + if turns[|turns| - 1].kept then [handles[|turns| - 1]] else []
  }

  lemma NoTurns(handles: seq<OpenFile>)
    ensures HandedOut([]) == [] && BytesUsed([]) == 0 && StillOpen(handles, []) == []
  {
  }

  lemma OneMoreTurn(handles: seq<OpenFile>, turns: seq<Turn>, turn: Turn)
    requires |turns| < |handles|
    ensures HandedOut(turns + [turn]) == HandedOut(turns) + turn.part
    ensures BytesUsed(turns + [turn]) == BytesUsed(turns) + turn.used
    ensures StillOpen(handles, turns + [turn])
         == StillOpen(handles, turns) + if turn.kept then [handles[|turns|]] else []
    ensures forall i | 0 <= i <= |turns| :: (turns + [turn])[..i] == turns[..i]
  {
    assert (turns + [turn])[..|turns|] == turns;
  }

  lemma {:induction false} StillOpenAre(handles: seq<OpenFile>, turns: seq<Turn>)
    requires |turns| <= |handles| && forall i, j | 0 <= i < j < |handles| :: handles[i] != handles[j]
    ensures forall h | h in StillOpen(handles, turns) :: exists i | 0 <= i < |turns| :: h == handles[i] && turns[i].kept
    ensures forall i, j | 0 <= i < j < |StillOpen(handles, turns)| ::
              StillOpen(handles, turns)[i] != StillOpen(handles, turns)[j]
  {
    if turns != [] {
      var front := turns[..|turns| - 1];
      StillOpenAre(handles, front);
      forall h | h in StillOpen(handles, turns)
        ensures exists i | 0 <= i < |turns| :: h == handles[i] && turns[i].kept
      {
        if h in StillOpen(handles, front) {
          var i :| 0 <= i < |front| && h == handles[i] && front[i].kept;
          assert turns[i].kept;
        } else {
          assert h == handles[|turns| - 1];
        }
      }
      var open := StillOpen(handles, front);
      forall i | 0 <= i < |open| ensures open[i] != handles[|turns| - 1] {
        assert open[i] in open;
      }
    }
  }

  /** Handle `i` was served with what the turns before its own left of the budget; what it handed
      out is recorded, and it still agrees with its file or is finished. */
  ghost predicate Turned(h: OpenFile, was: HandleBefore, turns: seq<Turn>, i: nat,
                         maxBytes: nat, maxLines: nat, limit: nat)
    requires i < |turns|
    reads h, h.file
  {
    && BytesUsed(turns[..i]) <= maxBytes && |HandedOut(turns[..i])| <= maxLines
    && Served(h.file.content, was.view, maxBytes - BytesUsed(turns[..i]), maxLines - |HandedOut(turns[..i])|, limit,
              h.View(), turns[i].part, turns[i].used, turns[i].kept)
    && h.emitted == was.emitted + turns[i].part
    && (was.tracks ==> if turns[i].kept then h.Tracks(limit) else h.Finished(limit))
    && (was.anchored ==> h.Anchored())
  }

  /** Turns taken so far are not affected by one more. */
  lemma MoreTurns(h: OpenFile, was: HandleBefore, turns: seq<Turn>, turn: Turn, i: nat,
                  maxBytes: nat, maxLines: nat, limit: nat)
    requires i < |turns| && Turned(h, was, turns, i, maxBytes, maxLines, limit)
    ensures Turned(h, was, turns + [turn], i, maxBytes, maxLines, limit)
  {
    hide Served, OpenFile.Tracks, OpenFile.Finished, OpenFile.Anchored;
    assert (turns + [turn])[..i] == turns[..i];
  }

  lemma StillTracks(h: OpenFile, was: HandleBefore, turns: seq<Turn>, i: nat, maxBytes: nat, maxLines: nat, limit: nat)
    requires i < |turns| && Turned(h, was, turns, i, maxBytes, maxLines, limit) && was.tracks && was.anchored
    ensures h.Anchored() && if turns[i].kept then h.Tracks(limit) else h.Finished(limit)
  {
    hide Served, OpenFile.Tracks, OpenFile.Finished, OpenFile.Anchored;
  }

  lemma LastTurn(h: OpenFile, was: HandleBefore, turns: seq<Turn>, turn: Turn,
                 maxBytes: nat, maxLines: nat, limit: nat)
    requires BytesUsed(turns) <= maxBytes && |HandedOut(turns)| <= maxLines
    requires Served(h.file.content, was.view, maxBytes - BytesUsed(turns), maxLines - |HandedOut(turns)|, limit,
                    h.View(), turn.part, turn.used, turn.kept)
    requires h.emitted == was.emitted + turn.part
    requires was.tracks ==> if turn.kept then h.Tracks(limit) else h.Finished(limit)
    requires was.anchored ==> h.Anchored()
    ensures Turned(h, was, turns + [turn], |turns|, maxBytes, maxLines, limit)
  {
    hide Served, OpenFile.Tracks, OpenFile.Finished, OpenFile.Anchored;
    assert (turns + [turn])[..|turns|] == turns;
  }

  class PathState {
    var active: OpenFile?
    var retired: seq<OpenFile>
    var initialized: bool

    ghost predicate Valid()
      reads this
    {
      && (forall i, j | 0 <= i < j < |retired| :: retired[i] != retired[j])
      && active !in retired
    }

    constructor ()
      ensures Valid() && active == null && retired == [] && !initialized
    {
      active, retired, initialized := null, [], false;
    }

    /** Follow what the path names now: nothing, the same file (perhaps rewritten), or another.
        A replaced handle is retired, and an open that fails leaves the path without one. */
    method Locate(current: LogFile?, initialStart: StartAt) returns (ok: bool)
      requires Valid()
      modifies this, active
      ensures Valid()
      ensures retired == old(retired) + if old(active) != null && (current == null || old(active).file != current)
                                        then [old(active)] else []
      ensures current == null ==> ok && active == null && initialized == old(initialized)
      ensures current != null ==> (ok <==> current.regular || (old(active) != null && old(active).file == current))
      ensures current != null && ok ==> active != null && active.file == current
      ensures !ok ==> active == null && initialized == old(initialized)
      ensures current != null && old(active) == null && ok ==>
                fresh(active) && initialized && active.emitted == []
                && active.Anchored() && (forall limit :: active.Tracks(limit))
                && active.start == active.offset
                   == if old(initialized) || initialStart.Beginning? then 0 else |current.content|
      ensures old(active) != null && (current == null || old(active).file != current) ==> unchanged(old(active))
      ensures current != null && old(active) != null && old(active).file != current && ok ==>
                fresh(active) && active.start == active.offset == 0 && active.emitted == []
                && active.Anchored() && forall limit :: active.Tracks(limit)
      ensures current != null && old(active) != null && old(active).file == current ==>
                active == old(active)
                && if old(active.Rewritten()) then
                     active.start == active.offset == 0 && active.idlePolls == 0 && active.emitted == []
                     && active.Anchored() && forall limit :: active.Tracks(limit)
                   else
                     unchanged(active)
    {
      ok := true;
      if current == null {
        if active != null {
          retired := retired + [active];
          active := null;
        }
        return;
      }
      if active == null {
        var startAt := if initialized then Beginning else initialStart;
        if !current.regular {
          return false;
        }
        active := new OpenFile.Open(current, startAt);
        initialized := true;
      } else if active.file != current {
        retired := retired + [active];
        active := null;
        if !current.regular {
          return false;
        }
        active := new OpenFile.Open(current, Beginning);
      } else {
        var rewritten := active.WasRewritten();
        if rewritten {
          active.Reset();
        }
      }
    }

    /** Serve the retired handles in the order they were retired, each with what the ones before
        it left of the budget. */
    method Drain(maxBytes: nat, maxLines: nat, limit: nat)
      returns (lines: seq<Line>, remaining: nat, ghost turns: seq<Turn>)
      requires Valid()
      modifies this`retired, retired
      ensures Valid()
      ensures |turns| == |old(retired)| && retired == StillOpen(old(retired), turns)
      ensures lines == HandedOut(turns) && |lines| <= maxLines && remaining + BytesUsed(turns) == maxBytes
      ensures forall i | 0 <= i < |turns| ::
                Turned(old(retired)[i], old(retired[i].Before(limit)), turns, i, maxBytes, maxLines, limit)
    {
      hide Served, Turned, OpenFile.Before, OpenFile.Tracks, OpenFile.Finished, OpenFile.Anchored, OpenFile.View;
      hide HandedOut, BytesUsed, StillOpen;
      NoTurns(retired);
      var handles := retired;
      lines, remaining, turns := [], maxBytes, [];
      var retained: seq<OpenFile> := [];
      var i := 0;
      while i < |handles|
        invariant 0 <= i <= |handles| && |turns| == i
        invariant handles == retired == old(retired) && active == old(active)
        invariant lines == HandedOut(turns) && |lines| <= maxLines && remaining + BytesUsed(turns) == maxBytes
        invariant retained == StillOpen(handles, turns)
        invariant forall k | 0 <= k < i ::
                    Turned(handles[k], old(retired[k].Before(limit)), turns, k, maxBytes, maxLines, limit)
        invariant forall k | i <= k < |handles| :: unchanged(handles[k])
      {
        var h := handles[i];
        var used, kept;
        ghost var part;
        lines, used, kept, part := h.ServeRetired(lines, remaining, maxLines, turns, maxBytes, limit);
        remaining := remaining - used;
        ghost var turns0, turn := turns, Turn(part, used, kept);
        turns := turns + [turn];
        OneMoreTurn(handles, turns0, turn);
        forall k | 0 <= k < i
          ensures Turned(handles[k], old(retired[k].Before(limit)), turns, k, maxBytes, maxLines, limit)
        {
          MoreTurns(handles[k], old(retired[k].Before(limit)), turns0, turn, k, maxBytes, maxLines, limit);
        }
        if kept {
          retained := retained + [h];
        }
        i := i + 1;
      }
      StillOpenAre(handles, turns);
      retired := retained;
    }

    /** Every handle agrees with its file. */
    ghost predicate Consistent(limit: nat)
      reads this, active, retired, if active == null then {} else {active.file}, set h | h in retired :: h.file
    {
      && (active != null ==> active.Tracks(limit) && active.Anchored())
      && (forall h | h in retired :: h.Tracks(limit) && h.Anchored())
    }

    /** One poll of the path: the retired handles first, the current file with what they leave.
        `located` is the view the current file is read from. */
    method ReadLinesBounded(current: LogFile?, initialStart: StartAt, maxBytes: nat, maxLines: nat, limit: nat)
      returns (ok: bool, lines: seq<Line>, ghost handles: seq<OpenFile>, ghost turns: seq<Turn>,
               ghost located: FileView, ghost part: seq<Line>, ghost used: nat)
      requires Valid()
      modifies this, active, retired
      ensures Valid() && |lines| <= maxLines && BytesUsed(turns) + used <= maxBytes
      ensures !ok ==> current != null && !current.regular && lines == [] && active == null && retired == handles
                      && used == 0 && turns == [] && part == [] && (old(active) == null || old(active).file != current)
      ensures handles == old(retired) + if old(active) != null && (current == null || old(active).file != current)
                                        then [old(active)] else []
      ensures ok ==> |turns| == |handles| && retired == StillOpen(handles, turns) && lines == HandedOut(turns) + part
      ensures ok ==> forall i | 0 <= i < |turns| ::
                Turned(handles[i], old(handles[i].Before(limit)), turns, i, maxBytes, maxLines, limit)
      ensures !ok ==> forall i | 0 <= i < |handles| :: handles[i].emitted == old(handles[i].emitted)
      ensures active !in handles
      ensures current != null && ok && (old(active) == null || old(active).file != current) ==> fresh(active)
      ensures current == null ==> ok && active == null && part == [] && used == 0
      ensures current != null && ok ==>
                && active != null && active.file == current
                && BytesUsed(turns) <= maxBytes && |HandedOut(turns)| <= maxLines
                && PartRead(current.content, located, maxBytes - BytesUsed(turns), maxLines - |HandedOut(turns)|, limit,
                            active.View(), part, used)
                && (old(active) == null || old(active).file != current ==>
                      located.offset == (if old(active) == null && !old(initialized) && initialStart.End?
                                        then |current.content| else 0))
                && (old(active) != null && old(active).file == current ==>
                      active == old(active)
                      && if old(active.Rewritten()) then located.offset == 0 else located == old(active.View()))
      ensures ok && active != null ==>
                active.emitted
                == (if old(active) == active && !old(active.Rewritten()) then old(active.emitted) else []) + part
      ensures old(Consistent(limit)) ==> Consistent(limit)
    {
      hide Served, Turned, PartRead, OpenFile.Tracks, OpenFile.Finished, OpenFile.Anchored, OpenFile.Rewritten;
      hide HandedOut, BytesUsed, StillOpen;
      lines, turns, part, used := [], [], [], 0;
      NoTurns([]);
      located := FileView(0, IDLE, [], 0, 0, 0);
      ok := Locate(current, initialStart);
      handles := retired;
      if !ok {
        return;
      }
      if active != null {
        located := active.View();
      }
      var remaining: nat;
      lines, remaining, turns := Drain(maxBytes, maxLines, limit);
      StillOpenAre(handles, turns);
      if old(Consistent(limit)) {
        forall i | 0 <= i < |turns| && turns[i].kept ensures handles[i].Tracks(limit) && handles[i].Anchored() {
          StillTracks(handles[i], old(handles[i].Before(limit)), turns, i, maxBytes, maxLines, limit);
        }
      }
      if active != null {
        lines, part, used := active.ReadPart(lines, remaining, maxLines, limit);
      }
    }
  }

  // ---------- Rewrites and idle polls ----------

  /** A file that changed since it was read up to the offset is taken for rewritten exactly when
      it is shorter, or one of the 64 bytes before the offset is not what it was. */
  lemma RewriteIsSeenExactlyWhen(h: OpenFile, was: seq<byte>)
    requires h.offset <= |was| && h.anchor == AnchorAt(was, h.offset)
    requires !(|h.file.content| == h.lastLen && h.file.modified == h.lastModified)
    ensures h.Rewritten() <==>
      || |h.file.content| < h.offset
      || exists k | 0 <= k < h.offset && h.offset - k <= 64 :: h.file.content[k] != was[k]
  {
    var now, at, n := h.file.content, h.offset, |h.anchor|;
    if at <= |now| {
      forall k | at - n <= k < at ensures h.anchor[k - (at - n)] == was[k] && now[at - n..at][k - (at - n)] == now[k] {
      }
      if now[at - n..at] != h.anchor {
        var j :| 0 <= j < n && now[at - n..at][j] != h.anchor[j];
        assert now[at - n + j] != was[at - n + j];
      }
    }
  }

  /** A retired handle that read anything in a turn is not closed by that turn or the next. */
  lemma ReadingResetsIdle(content: seq<byte>, v: FileView, bytes: nat, room: nat, limit: nat,
                          v': FileView, part: seq<Line>, consumed: nat, kept: bool,
                          content': seq<byte>, bytes': nat, room': nat, v'': FileView, part': seq<Line>,
                          consumed': nat, kept': bool)
    requires Served(content, v, bytes, room, limit, v', part, consumed, kept) && consumed > 0
    requires Served(content', v', bytes', room', limit, v'', part', consumed', kept')
    ensures kept && v'.idlePolls == 0 && kept'
  {
    hide Between, EmittedAll, FedAll, AnchorAt;
  }

  /** Two turns with budget in a row that find nothing close it, the second with its rest. */
  lemma TwoIdleTurnsClose(content: seq<byte>, v: FileView, bytes: nat, room: nat, limit: nat,
                          v': FileView, part: seq<Line>, consumed: nat, kept: bool,
                          bytes': nat, room': nat, v'': FileView, part': seq<Line>, consumed': nat, kept': bool)
    requires Served(content, v, bytes, room, limit, v', part, consumed, kept) && bytes > 0 && room > 0
    requires Served(content, v', bytes', room', limit, v'', part', consumed', kept') && bytes' > 0 && room' > 0
    requires v.offset >= |content| && v.idlePolls == 0 && v.state.pending != []
    ensures kept && part == [] && !kept' && part' == [TrimLineEnding(v.state.pending)]
  {
    hide AnchorAt, TrimLineEnding;
    NothingBetween(content, v.offset, v.state, limit);
  }

  // ---------- A file that only grows ----------

  /** One poll of a growing file: its content then, the budget, and what came of it. */
  datatype Poll = Poll(content: seq<byte>, bytes: nat, room: nat, part: seq<Line>, used: nat, after: FileView)

  function ViewAfter(first: FileView, polls: seq<Poll>): FileView {
    if polls == [] then first else polls[|polls| - 1].after
  }

  function AllParts(polls: seq<Poll>): seq<Line> {
    if polls == [] then [] else AllParts(polls[..|polls| - 1]) + polls[|polls| - 1].part
  }

  /** Polls of an append-only file, whatever their budgets. */
  ghost predicate Tailed(first: FileView, polls: seq<Poll>, limit: nat) {
    polls == [] ||
    var front, last := polls[..|polls| - 1], polls[|polls| - 1];
    && Tailed(first, front, limit)
    && (front != [] ==> front[|front| - 1].content <= last.content)
    && PartRead(last.content, ViewAfter(first, front), last.bytes, last.room, limit, last.after, last.part, last.used)
  }

  /** However a growing file is cut into polls and whatever the budgets, the lines handed out so
      far are those of the one-shot splitter on the bytes consumed, and so is the state. */
  lemma {:induction false} TailingIsOneShot(first: FileView, polls: seq<Poll>, limit: nat)
    requires polls != [] && Tailed(first, polls, limit)
    requires first.state == IDLE.(dropped := first.state.dropped) && first.offset <= |polls[0].content|
    ensures
      var content, v := polls[|polls| - 1].content, ViewAfter(first, polls);
      && first.offset <= v.offset <= |content|
      && v.state == StateAfter(content[first.offset..v.offset], limit, first.state.dropped)
      && AllParts(polls) == Kept(CutLines(content[first.offset..v.offset]).lines, limit)
      && (first.anchor == AnchorAt(polls[0].content, first.offset) ==> v.anchor == AnchorAt(content, v.offset))
  {
    hide StateAfter, Kept, CutLines, FedAll, EmittedAll;
    var front, last := polls[..|polls| - 1], polls[|polls| - 1];
    var v := ViewAfter(first, front);
    if front == [] {
      NothingRead(last.content, first.offset, first.state.dropped, limit);
    } else {
      TailingIsOneShot(first, front, limit);
      var before := front[|front| - 1].content;
      assert last.content[first.offset..v.offset] == before[first.offset..v.offset];
      assert AnchorAt(last.content, v.offset) == AnchorAt(before, v.offset);
    }
    assert v.state == StateAfter(last.content[first.offset..v.offset], limit, first.state.dropped);
    PartFollows(last.content, first.offset, v, last.bytes, last.room, limit, last.after, last.part, last.used,
                first.state.dropped);
  }

  /** What tailing hands out is the text: whatever lines the bytes consumed were written as, the
      lines are the texts that fit. */
  lemma TailedTextComesBack(first: FileView, polls: seq<Poll>, limit: nat, pieces: seq<Written>, rest: Line)
    requires polls != [] && Tailed(first, polls, limit)
    requires first.state == IDLE.(dropped := first.state.dropped) && first.offset <= |polls[0].content|
    requires LF !in rest && forall w | w in pieces :: IsLine(w)
    requires
      var content, v := polls[|polls| - 1].content, ViewAfter(first, polls);
      Between(content, first.offset, v.offset) == Bytes(pieces) + rest
    ensures AllParts(polls) == FittingTexts(pieces, limit)
  {
    hide Tailed, Kept, CutLines, EmittedAll, StateAfter, FittingTexts, Bytes, IsLine;
    TailingIsOneShot(first, polls, limit);
    WrittenComesBack(pieces, rest, limit, first.state.dropped);
  }

  lemma PartFollows(content: seq<byte>, start: nat, v: FileView, bytes: nat, room: nat, limit: nat,
                    v': FileView, part: seq<Line>, used: nat, base: u64)
    requires start <= v.offset <= |content| && PartRead(content, v, bytes, room, limit, v', part, used)
    requires v.state == StateAfter(content[start..v.offset], limit, base)
    ensures v.offset <= v'.offset <= |content|
    ensures v'.state == StateAfter(content[start..v'.offset], limit, base)
    ensures Kept(CutLines(content[start..v.offset]).lines, limit) + part
         == Kept(CutLines(content[start..v'.offset]).lines, limit)
    ensures v.anchor == AnchorAt(content, v.offset) ==> v'.anchor == AnchorAt(content, v'.offset)
  {
    hide StateAfter, Kept, CutLines, FedAll, EmittedAll, AnchorAt;
    if bytes != 0 && room != 0 {
      TracksOn(content, start, v.offset, v'.offset, limit, base);
    }
  }

  /** A poll with room reads at least one byte of what is unread, so a file that stops growing
      is read to its end. */
  lemma {:induction false} TailingCatchesUp(first: FileView, polls: seq<Poll>, limit: nat)
    requires Tailed(first, polls, limit)
    requires forall poll | poll in polls :: poll.bytes > 0 && poll.room > 0 && poll.content == polls[0].content
    ensures polls != [] ==>
      ViewAfter(first, polls).offset >= Min(|polls[0].content|, first.offset + |polls|)
  {
    if polls != [] {
      var front, last := polls[..|polls| - 1], polls[|polls| - 1];
      assert last in polls;
      forall poll | poll in front
        ensures poll in polls && poll.bytes > 0 && poll.room > 0 && poll.content == polls[0].content
      {
      }
      TailingCatchesUp(first, front, limit);
    }
  }

  /** When a drained handle closes, every line of its file from where it began has been handed
      out, an unterminated last one included; only those too long are missing. */
  lemma ClosedFileIsFullyRead(content: seq<byte>, start: nat, v: FileView, base: u64, emitted: seq<Line>,
                              bytes: nat, room: nat, limit: nat, v': FileView, part: seq<Line>, used: nat)
    requires start <= v.offset <= |content| && v.state == StateAfter(content[start..v.offset], limit, base)
    requires emitted == Kept(CutLines(content[start..v.offset]).lines, limit)
    requires Served(content, v, bytes, room, limit, v', part, used, false)
    ensures v.offset == |content|
    ensures emitted + part == Kept(WholeLines(content[start..]), limit)
  {
    hide CutLines, TrimLineEnding;
    ClosesOnlyDrained(content, v, bytes, room, limit, v', part, used);
    hide Served, Portion, Closing;
    assert content[start..v.offset] == content[start..];
    var cut := CutLines(content[start..]);
    var all := cut.lines + if cut.tail == [] then [] else [cut.tail];
    if cut.tail == [] {
      assert all == cut.lines;
    } else {
      assert all[..|all| - 1] == cut.lines;
    }
  }

  lemma ClosedIsFinished(content: seq<byte>, start: nat, v: FileView, base: u64, emitted: seq<Line>,
                         bytes: nat, room: nat, limit: nat, v': FileView, part: seq<Line>, used: nat)
    requires start <= v.offset <= |content| && v.state == StateAfter(content[start..v.offset], limit, base)
    requires emitted == Kept(CutLines(content[start..v.offset]).lines, limit)
    requires Served(content, v, bytes, room, limit, v', part, used, false)
    ensures v'.offset == v.offset && emitted + part == Kept(WholeLines(content[start..v'.offset]), limit)
  {
    hide CutLines, Kept, WholeLines, StateAfter, Served;
    ClosesOnlyDrained(content, v, bytes, room, limit, v', part, used);
    ClosedFileIsFullyRead(content, start, v, base, emitted, bytes, room, limit, v', part, used);
    assert content[start..v.offset] == content[start..];
  }

  /** The bytes between two offsets, none when the file does not reach that far. */
  function Between(content: seq<byte>, from: nat, to: nat): seq<byte> {
    if from <= to <= |content| then content[from..to] else []
  }

  lemma NothingBetween(content: seq<byte>, offset: nat, st: LineState, limit: nat)
    ensures Between(content, offset, offset) == []
    ensures EmittedAll(st, Between(content, offset, offset), limit) == []
    ensures FedAll(st, Between(content, offset, offset), limit) == st
  {
  }

  lemma OneMoreByte(content: seq<byte>, from: nat, at: nat, st: LineState, limit: nat)
    requires from <= at < |content|
    ensures
      var before := FedAll(st, Between(content, from, at), limit);
      && FedAll(st, Between(content, from, at + 1), limit) == Fed(before, content[at], limit)
      && EmittedAll(st, Between(content, from, at + 1), limit)
         == EmittedAll(st, Between(content, from, at), limit) + Emitted(before, content[at])
  {
    assert content[from..at + 1] == content[from..at] + [content[at]];
    FedInChunks(st, content[from..at], [content[at]], limit);
    assert [content[at]][1..] == [];
  }

  /** A handle that tracked the one-shot splitter before a portion tracks it after. */
  lemma TracksOn(content: seq<byte>, start: nat, from: nat, to: nat, limit: nat, base: u64)
    requires start <= from <= to <= |content|
    ensures
      var st := StateAfter(content[start..from], limit, base);
      && FedAll(st, Between(content, from, to), limit) == StateAfter(content[start..to], limit, base)
      && Kept(CutLines(content[start..from]).lines, limit) + EmittedAll(st, Between(content, from, to), limit)
         == Kept(CutLines(content[start..to]).lines, limit)
  {
    hide FedAll, EmittedAll, CutLines, Kept, StateAfter;
    FedIsOneShot(content[start..from], limit, base);
    FedIsOneShot(content[start..to], limit, base);
    assert content[start..to] == content[start..from] + content[from..to];
    FedInChunks(IDLE.(dropped := base), content[start..from], content[from..to], limit);
  }

  // ---------- Many polls ----------

  /** A line and the handle it was read from. */
  datatype Handed = Handed(source: OpenFile, line: Line)

  function LinesOf(log: seq<Handed>): seq<Line> {
    seq(|log|, i requires 0 <= i < |log| => log[i].line)
  }

  /** The lines of one handle, in the order they were handed out. */
  ghost function From(log: seq<Handed>, h: OpenFile): seq<Line> {
    if log == [] then [] else
      From(log[..|log| - 1], h) + if log[|log| - 1].source == h then [log[|log| - 1].line] else []
  }

  ghost function Tagged(h: OpenFile, lines: seq<Line>): seq<Handed> {
    seq(|lines|, i requires 0 <= i < |lines| => Handed(h, lines[i]))
  }

  ghost function LogOf(handles: seq<OpenFile>, turns: seq<Turn>): seq<Handed>
    requires |turns| <= |handles|
  {
    if turns == [] then [] else
      LogOf(handles, turns[..|turns| - 1]) + Tagged(handles[|turns| - 1], turns[|turns| - 1].part)
  }

  lemma {:induction false} FromAppend(a: seq<Handed>, b: seq<Handed>, h: OpenFile)
    ensures From(a + b, h) == From(a, h) + From(b, h)
  {
    if b == [] {
      assert a + b == a;
    } else {
      assert (a + b)[..|a + b| - 1] == a + b[..|b| - 1];
      FromAppend(a, b[..|b| - 1], h);
    }
  }

  lemma {:induction false} FromTagged(g: OpenFile, lines: seq<Line>, h: OpenFile)
    ensures From(Tagged(g, lines), h) == if g == h then lines else []
  {
    if lines != [] {
      var front := lines[..|lines| - 1];
      assert Tagged(g, lines)[..|lines| - 1] == Tagged(g, front);
      FromTagged(g, front, h);
    }
  }

  lemma {:induction false} FromNone(log: seq<Handed>, h: OpenFile)
    requires forall e | e in log :: e.source != h
    ensures From(log, h) == []
  {
    if log != [] {
      assert log[|log| - 1] in log;
      FromNone(log[..|log| - 1], h);
    }
  }

  lemma LogOfMore(handles: seq<OpenFile>, turns: seq<Turn>, h: OpenFile)
    requires 0 < |turns| <= |handles|
    ensures
      var n := |turns| - 1;
      From(LogOf(handles, turns), h)
      == From(LogOf(handles, turns[..n]), h) + if handles[n] == h then turns[n].part else []
  {
    var n := |turns| - 1;
    hide From, Tagged;
    FromTagged(handles[n], turns[n].part, h);
    FromAppend(LogOf(handles, turns[..n]), Tagged(handles[n], turns[n].part), h);
  }

  lemma NoLog(handles: seq<OpenFile>, h: OpenFile)
    ensures From(LogOf(handles, []), h) == []
  {
  }

  lemma {:induction false} FromOthers(handles: seq<OpenFile>, turns: seq<Turn>, h: OpenFile)
    requires |turns| <= |handles| && forall i | 0 <= i < |turns| :: handles[i] != h
    ensures From(LogOf(handles, turns), h) == []
  {
    hide From, LogOf;
    if turns == [] {
      NoLog(handles, h);
    } else {
      LogOfMore(handles, turns, h);
      FromOthers(handles, turns[..|turns| - 1], h);
    }
  }

  lemma {:induction false} FromOne(handles: seq<OpenFile>, turns: seq<Turn>, i: nat)
    requires i < |turns| <= |handles| && forall j, k | 0 <= j < k < |handles| :: handles[j] != handles[k]
    ensures From(LogOf(handles, turns), handles[i]) == turns[i].part
  {
    hide From, LogOf;
    LogOfMore(handles, turns, handles[i]);
    if i == |turns| - 1 {
      FromOthers(handles, turns[..i], handles[i]);
    } else {
      FromOne(handles, turns[..|turns| - 1], i);
    }
  }

  lemma {:induction false} LinesOfLog(handles: seq<OpenFile>, turns: seq<Turn>)
    requires |turns| <= |handles|
    ensures LinesOf(LogOf(handles, turns)) == HandedOut(turns)
    ensures forall e | e in LogOf(handles, turns) :: e.source in handles[..|turns|]
  {
    if turns != [] {
      var front, n := turns[..|turns| - 1], |turns| - 1;
      LinesOfLog(handles, front);
      var tagged := Tagged(handles[n], turns[n].part);
      assert LinesOf(tagged) == turns[n].part;
      assert LinesOf(LogOf(handles, front) + tagged) == LinesOf(LogOf(handles, front)) + LinesOf(tagged);
      assert handles[..n + 1] == handles[..n] + [handles[n]];
    }
  }

  /** What one poll adds to the record, handle by handle. */
  lemma FromPoll(log: seq<Handed>, handles: seq<OpenFile>, turns: seq<Turn>, active: OpenFile?, part: seq<Line>,
                 g: OpenFile)
    requires |turns| == |handles| && forall i, j | 0 <= i < j < |handles| :: handles[i] != handles[j]
    requires active !in handles && (active == null ==> part == [])
    ensures
      var log' := PollLog(log, handles, turns, active, part);
      && (forall i | 0 <= i < |turns| && handles[i] == g :: From(log', g) == From(log, g) + turns[i].part)
      && (g == active ==> From(log', g) == From(log, g) + part)
      && (g != active && g !in handles ==> From(log', g) == From(log, g))
  {
    hide From, LogOf;
    if i: nat :| i < |handles| && handles[i] == g {
      FromOne(handles, turns, i);
    } else {
      FromOthers(handles, turns, g);
    }
    FromAppend(log, LogOf(handles, turns), g);
    if active != null {
      FromTagged(active, part, g);
      FromAppend(log + LogOf(handles, turns), Tagged(active, part), g);
    } else {
      assert log + LogOf(handles, turns) + [] == log + LogOf(handles, turns);
    }
    assert g in handles ==> exists i | 0 <= i < |handles| :: handles[i] == g;
  }

  ghost function PollLog(log: seq<Handed>, handles: seq<OpenFile>, turns: seq<Turn>, active: OpenFile?, part: seq<Line>)
    : seq<Handed>
    requires |turns| <= |handles|
  {
    log + LogOf(handles, turns) + if active == null then [] else Tagged(active, part)
  }

  lemma PollLogLines(log: seq<Handed>, handles: seq<OpenFile>, turns: seq<Turn>, active: OpenFile?, part: seq<Line>)
    requires |turns| <= |handles| && (active == null ==> part == [])
    ensures
      var log' := PollLog(log, handles, turns, active, part);
      && log <= log' && LinesOf(log'[|log|..]) == HandedOut(turns) + part
      && forall e | e in log' :: e in log || e.source in handles || e.source == active
  {
    hide LogOf, HandedOut, LinesOf, Tagged;
    LinesOfLog(handles, turns);
    assert handles[..|turns|] <= handles;
    var first, rest := LogOf(handles, turns), if active == null then [] else Tagged(active, part);
    LinesOfBoth(first, rest);
    LinesOfTagged(active, part);
    assert log + first + rest == log + (first + rest);
    assert (log + (first + rest))[|log|..] == first + rest;
  }

  lemma LinesOfBoth(a: seq<Handed>, b: seq<Handed>)
    ensures LinesOf(a + b) == LinesOf(a) + LinesOf(b)
  {
  }

  lemma LinesOfTagged(h: OpenFile?, lines: seq<Line>)
    ensures LinesOf([]) == []
    ensures h != null ==> LinesOf(Tagged(h, lines)) == lines && forall e | e in Tagged(h, lines) :: e.source == h
  {
  }

  lemma TurnedEmits(h: OpenFile, was: HandleBefore, turns: seq<Turn>, i: nat, maxBytes: nat, maxLines: nat, limit: nat)
    requires i < |turns| && Turned(h, was, turns, i, maxBytes, maxLines, limit)
    ensures h.emitted == was.emitted + turns[i].part
  {
    hide Served, OpenFile.Tracks, OpenFile.Finished, OpenFile.Anchored;
  }

  lemma NotRewritten(h: OpenFile)
    requires h.Anchored()
    ensures !h.Rewritten()
  {
  }

  /** The record stays true, given what each handle handed out. */
  lemma RecordHolds(log: seq<Handed>, was: map<OpenFile, seq<Line>>, handles: seq<OpenFile>, turns: seq<Turn>,
                    active: OpenFile?, part: seq<Line>, h: OpenFile)
    requires |turns| == |handles| && forall i, j | 0 <= i < j < |handles| :: handles[i] != handles[j]
    requires active !in handles && (active == null ==> part == [])
    requires (forall g | g in was :: From(log, g) == was[g]) && forall e | e in log :: e.source in was
    requires forall i | 0 <= i < |handles| :: handles[i] in was && handles[i].emitted == was[handles[i]] + turns[i].part
    requires active != null ==> active.emitted == (if active in was then was[active] else []) + part
    requires forall g | g in was && g !in handles && g != active :: g.emitted == was[g]
    requires h in was || h == active
    ensures From(PollLog(log, handles, turns, active, part), h) == h.emitted
  {
    hide From, PollLog;
    FromPoll(log, handles, turns, active, part, h);
    if h !in was {
      FromNone(log, h);
    }
    assert h in handles ==> exists i | 0 <= i < |handles| :: handles[i] == h;
  }

  /** A followed path, with a record of every line handed out for it and of the handles closed. */
  class FollowedPath {
    const path: PathState
    ghost var log: seq<Handed>
    ghost var closed: set<OpenFile>

    constructor ()
      ensures fresh(path) && log == [] && forall limit :: Logged(limit)
    {
      path := new PathState();
      log, closed := [], {};
    }

    ghost function Open(): set<OpenFile>
      reads this, path
    {
      (set h | h in path.retired) + if path.active == null then {} else {path.active}
    }

    /** For each open handle, the lines handed out from it are those of the one-shot splitter on
        the bytes of its file from where it began to where it is; for each closed one, they are
        all of them to the end, an unterminated last line included. */
    ghost predicate Logged(limit: nat)
      reads this, path, Open(), closed, set h | h in Open() :: h.file, set h | h in closed :: h.file
    {
      && path.Valid() && closed !! Open()
      && (forall h | h in Open() :: h.Tracks(limit) && h.Anchored() && From(log, h) == h.emitted)
      && (forall h | h in closed :: h.Finished(limit) && From(log, h) == h.emitted)
      && (forall e | e in log :: e.source in Open() + closed)
    }

    /** One more poll keeps the record true; files may have grown since the last. */
    method Poll(current: LogFile?, initialStart: StartAt, maxBytes: nat, maxLines: nat, limit: nat)
      returns (ok: bool, lines: seq<Line>)
      requires Logged(limit)
      modifies this, path, path.active, path.retired
      ensures Logged(limit) && |lines| <= maxLines
      ensures old(log) <= log && lines == LinesOf(log[|old(log)|..])
      ensures old(closed) <= closed <= old(closed) + old(Open())
    {
      hide Logged, OpenFile.Tracks, OpenFile.Finished, OpenFile.Anchored, HandedOut, StillOpen, From, PollLog, Gone;
      ghost var was := Record();
      ghost var handles, turns, part;
      ok, lines, handles, turns, part := ReadOnce(current, initialStart, maxBytes, maxLines, limit, was);
      if ok {
        PollLogLines(log, handles, turns, path.active, part);
        Note(handles, turns, part, limit, was);
      } else {
        NothingNoted(limit, handles, was);
        assert log[|log|..] == [];
      }
    }

    /** Enter a poll in the record. */
    ghost method Note(handles: seq<OpenFile>, turns: seq<Turn>, part: seq<Line>, limit: nat,
                      was: map<OpenFile, seq<Line>>)
      requires path.Valid() && path.active !in handles && (path.active == null ==> part == [])
      requires forall h | h in Open() :: h.Tracks(limit) && h.Anchored()
      requires forall i, j | 0 <= i < j < |handles| :: handles[i] != handles[j]
      requires |turns| == |handles| && path.retired == StillOpen(handles, turns)
      requires forall i | 0 <= i < |handles| ::
                 handles[i] in was && handles[i].emitted == was[handles[i]] + turns[i].part
      requires forall h | h in Gone(handles, turns) :: h.Finished(limit)
      requires path.active != null ==>
                 path.active !in closed
                 && path.active.emitted == (if path.active in was then was[path.active] else []) + part
      requires forall h | h in was && h !in handles && h != path.active :: h in closed
      requires forall h | h in closed :: h in was && h !in handles && h.emitted == was[h] && h.Finished(limit)
      requires (forall h | h in was :: From(log, h) == was[h]) && forall e | e in log :: e.source in was
      modifies this`log, this`closed
      ensures Logged(limit) && log == PollLog(old(log), handles, turns, path.active, part)
      ensures closed == old(closed) + Gone(handles, turns)
    {
      hide OpenFile.Tracks, OpenFile.Finished, OpenFile.Anchored, HandedOut, StillOpen, From, LogOf, PollLog, Gone;
      PollLogLines(log, handles, turns, path.active, part);
      GoneAreNotOpen(handles, turns);
      ghost var log0 := log;
      log := PollLog(log, handles, turns, path.active, part);
      closed := closed + Gone(handles, turns);
      forall h | h in Open() + closed ensures From(log, h) == h.emitted {
        RecordHolds(log0, was, handles, turns, path.active, part, h);
      }
    }

    lemma NothingNoted(limit: nat, handles: seq<OpenFile>, was: map<OpenFile, seq<Line>>)
      requires path.Valid() && path.active == null && path.retired == handles
      requires forall h | h in Open() :: h.Tracks(limit) && h.Anchored()
      requires forall i | 0 <= i < |handles| :: handles[i] in was && handles[i].emitted == was[handles[i]]
      requires forall h | h in was && h !in handles :: h in closed
      requires forall h | h in closed :: h in was && h !in handles && h.emitted == was[h] && h.Finished(limit)
      requires (forall h | h in was :: From(log, h) == was[h]) && forall e | e in log :: e.source in was
      ensures Logged(limit)
    {
      hide OpenFile.Tracks, OpenFile.Finished, OpenFile.Anchored, From;
    }

    ghost function Record(): map<OpenFile, seq<Line>>
      reads this, path, Open(), closed
    {
      map h | h in Open() + closed :: h.emitted
    }

    /** The poll itself, and what it did to the lines of each handle. */
    method ReadOnce(current: LogFile?, initialStart: StartAt, maxBytes: nat, maxLines: nat, limit: nat,
                    ghost was: map<OpenFile, seq<Line>>)
      returns (ok: bool, lines: seq<Line>, ghost handles: seq<OpenFile>, ghost turns: seq<Turn>, ghost part: seq<Line>)
      requires Logged(limit) && was == Record()
      modifies path, path.active, path.retired
      ensures (forall h | h in was :: From(log, h) == was[h]) && forall e | e in log :: e.source in was
      ensures path.Valid() && |lines| <= maxLines && path.active !in handles
      ensures forall h | h in Open() :: h.Tracks(limit) && h.Anchored()
      ensures forall i, j | 0 <= i < j < |handles| :: handles[i] != handles[j]
      ensures !ok ==> lines == [] && path.active == null && path.retired == handles && part == []
      ensures !ok ==> forall i | 0 <= i < |handles| :: handles[i] in was && handles[i].emitted == was[handles[i]]
      ensures ok ==> |turns| == |handles| && lines == HandedOut(turns) + part
      ensures ok ==> path.retired == StillOpen(handles, turns)
      ensures ok && path.active == null ==> part == []
      ensures ok ==> forall i | 0 <= i < |handles| ::
                handles[i] in was && handles[i].emitted == was[handles[i]] + turns[i].part
      ensures ok ==> forall h | h in Gone(handles, turns) :: h.Finished(limit) && h in old(Open())
      ensures path.active != null ==>
                path.active !in closed
                && path.active.emitted == (if path.active in was then was[path.active] else []) + part
      ensures forall h | h in was && h !in handles && h != path.active :: h in closed
      ensures forall h | h in closed :: h in was && h !in handles && h.emitted == was[h] && h.Finished(limit)
    {
      hide PartRead, Turned, OpenFile.Tracks, OpenFile.Finished, OpenFile.Anchored, OpenFile.Rewritten, HandedOut;
      hide BytesUsed, StillOpen, From;
      if path.active != null {
        NotRewritten(path.active);
      }
      assert path.Consistent(limit);
      ghost var located, used;
      ok, lines, handles, turns, located, part, used :=
        path.ReadLinesBounded(current, initialStart, maxBytes, maxLines, limit);
      if ok {
        forall i | 0 <= i < |turns|
          ensures handles[i].emitted == old(handles[i].emitted) + turns[i].part
          ensures turns[i].kept || handles[i].Finished(limit)
        {
          StillTracks(handles[i], old(handles[i].Before(limit)), turns, i, maxBytes, maxLines, limit);
          TurnedEmits(handles[i], old(handles[i].Before(limit)), turns, i, maxBytes, maxLines, limit);
        }
      }
    }
  }

  /** A file that grows between polls, whichever it is, keeps the record true. */
  method Append(file: LogFile, more: seq<byte>, modified: int, ghost p: FollowedPath, ghost limit: nat)
    requires p.Logged(limit)
    modifies file
    ensures file.content == old(file.content) + more && file.modified == modified
    ensures p.Logged(limit)
  {
    hide StateAfter, CutLines, WholeLines, Kept, AnchorAt, From;
    ghost var was := file.content;
    file.content, file.modified := file.content + more, modified;
    forall h | h in p.Open() ensures h.Tracks(limit) && h.Anchored() {
      LongerAgrees(was, file.content, h.start, h.offset);
    }
    forall h | h in p.closed ensures h.Finished(limit) {
      LongerAgrees(was, file.content, h.start, h.offset);
    }
  }

  lemma LongerAgrees(was: seq<byte>, now: seq<byte>, start: nat, offset: nat)
    requires was <= now
    ensures start <= offset <= |was| ==> now[start..offset] == was[start..offset]
    ensures offset <= |was| ==> AnchorAt(now, offset) == AnchorAt(was, offset)
  {
  }

  /** What a true record says: for each handle, the lines handed out over all polls so far are
      the splitting of its file's bytes, in order, each once. */
  lemma LoggedIsOneShot(p: FollowedPath, limit: nat, h: OpenFile)
    requires p.Logged(limit) && h in p.Open() + p.closed
    ensures h.start <= h.offset <= |h.file.content|
    ensures From(p.log, h)
         == Kept(if h in p.closed then WholeLines(h.file.content[h.start..h.offset])
                 else CutLines(h.file.content[h.start..h.offset]).lines, limit)
  {
    hide CutLines, WholeLines, Kept, From, StateAfter;
  }

  /** In terms of the text: of a file written as these lines and an unterminated rest, the texts
      that fit have been handed out, each once and in order, and with a closed handle the rest's
      text too when it fits. */
  lemma LoggedTextComesBack(p: FollowedPath, limit: nat, h: OpenFile, pieces: seq<Written>, rest: Written)
    requires p.Logged(limit) && h in p.Open() + p.closed
    requires IsLine(rest) && forall w | w in pieces :: IsLine(w)
    requires Between(h.file.content, h.start, h.offset) == Bytes(pieces) + Raw(rest)
    ensures From(p.log, h)
         == FittingTexts(pieces, limit)
            + if h in p.closed && Raw(rest) != [] && |Raw(rest)| <= limit then [rest.text] else []
  {
    hide Kept, CutLines, EmittedAll, StateAfter, FittingTexts, Bytes, IsLine, From, Raw, FollowedPath.Logged;
    LoggedIsOneShot(p, limit, h);
    TrimmedIsText(rest);
    WrittenComesBack(pieces, Raw(rest), limit, 0);
    KeptMore(CutLines(Bytes(pieces) + Raw(rest)).lines, Raw(rest), limit);
    var lines := CutLines(Bytes(pieces) + Raw(rest)).lines;
    assert Raw(rest) == [] ==> lines + [] == lines;
  }

  function Gone(handles: seq<OpenFile>, turns: seq<Turn>): set<OpenFile>
    requires |turns| <= |handles|
  {
    set i | 0 <= i < |turns| && !turns[i].kept :: handles[i]
  }

  lemma GoneAreNotOpen(handles: seq<OpenFile>, turns: seq<Turn>)
    requires |turns| == |handles| && forall i, j | 0 <= i < j < |handles| :: handles[i] != handles[j]
    ensures forall h | h in StillOpen(handles, turns) :: h !in Gone(handles, turns) && h in handles
    ensures forall h | h in Gone(handles, turns) :: h in handles
    ensures forall h | h in handles :: h in StillOpen(handles, turns) || h in Gone(handles, turns)
  {
    StillOpenAre(handles, turns);
    KeptAreOpen(handles, turns);
    hide StillOpen;
    forall h | h in handles ensures h in StillOpen(handles, turns) || h in Gone(handles, turns) {
      var i :| 0 <= i < |handles| && handles[i] == h;
      assert turns[i].kept || h in Gone(handles, turns);
    }
  }

  lemma {:induction false} KeptAreOpen(handles: seq<OpenFile>, turns: seq<Turn>)
    requires |turns| <= |handles|
    ensures forall i | 0 <= i < |turns| && turns[i].kept :: handles[i] in StillOpen(handles, turns)
  {
    if turns != [] {
      KeptAreOpen(handles, turns[..|turns| - 1]);
      assert forall i | 0 <= i < |turns| - 1 :: turns[..|turns| - 1][i] == turns[i];
    }
  }
}
