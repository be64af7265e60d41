/** Splitting a byte stream into lines: the tailer's one-byte-at-a-time automaton, and the
    one-shot splitter it must agree with. */
module LineSplitting {
  import opened Wrappers
  import opened Collections
  import opened Counters

  type byte = n: nat | n < 256

  type Line = seq<byte>

  const LF: byte := 10
  const CR: byte := 13

  function TrimLineEnding(line: Line): Line {
    if line != [] && line[|line| - 1] == CR then line[..|line| - 1] else line
  }

  // ---------- The automaton ----------

  datatype LineState = LineState(pending: Line, discarding: bool, dropped: u64)

  const IDLE: LineState := LineState([], false, 0)

  function Fed(st: LineState, b: byte, limit: nat): LineState {
    if st.discarding then st.(discarding := b != LF)
    else if b == LF then st.(pending := [])
    else if |st.pending| < limit then st.(pending := st.pending + [b])
    else LineState([], true, SatAdd(st.dropped, 1))
  }

  function Emitted(st: LineState, b: byte): seq<Line> {
    if !st.discarding && b == LF then [TrimLineEnding(st.pending)] else []
  }

  function FedAll(st: LineState, bytes: seq<byte>, limit: nat): LineState
    decreases |bytes|
  {
    if bytes == [] then st else FedAll(Fed(st, bytes[0], limit), bytes[1..], limit)
  }

  function EmittedAll(st: LineState, bytes: seq<byte>, limit: nat): seq<Line>
    decreases |bytes|
  {
    if bytes == [] then [] else Emitted(st, bytes[0]) + EmittedAll(Fed(st, bytes[0], limit), bytes[1..], limit)
  }

  /** Feeding a stream in two chunks is feeding it at once. */
  lemma {:induction false} FedInChunks(st: LineState, left: seq<byte>, right: seq<byte>, limit: nat)
    ensures FedAll(st, left + right, limit) == FedAll(FedAll(st, left, limit), right, limit)
    ensures EmittedAll(st, left + right, limit)
         == EmittedAll(st, left, limit) + EmittedAll(FedAll(st, left, limit), right, limit)
    decreases |left|
  {
    if left == [] {
      assert left + right == right;
    } else {
      assert (left + right)[1..] == left[1..] + right;
      FedInChunks(Fed(st, left[0], limit), left[1..], right, limit);
    }
  }

  // ---------- The one-shot splitter ----------

  /** The text cut after every newline: the terminated lines, and what follows the last newline. */
  datatype Cut = Cut(lines: seq<Line>, tail: Line)

  function CutLines(bytes: seq<byte>): Cut {
    if bytes == [] then Cut([], []) else
      var cut, b := CutLines(bytes[..|bytes| - 1]), bytes[|bytes| - 1];
      if b == LF then Cut(cut.lines + [cut.tail], []) else Cut(cut.lines, cut.tail + [b])
  }

  function Joined(lines: seq<Line>): seq<byte> {
    if lines == [] then [] else Joined(lines[..|lines| - 1]) + lines[|lines| - 1] + [LF]
  }

  /** Cutting loses nothing, and no piece contains a newline. */
  lemma {:induction false} CutRejoins(bytes: seq<byte>)
    ensures Joined(CutLines(bytes).lines) + CutLines(bytes).tail == bytes
    ensures LF !in CutLines(bytes).tail && forall line | line in CutLines(bytes).lines :: LF !in line
  {
    if bytes != [] {
      var front, b := bytes[..|bytes| - 1], bytes[|bytes| - 1];
      CutRejoins(front);
      assert bytes == front + [b];
      var cut := CutLines(front);
      if b == LF {
        assert (cut.lines + [cut.tail])[..|cut.lines|] == cut.lines;
        assert Joined(cut.lines + [cut.tail]) == Joined(cut.lines) + cut.tail + [LF];
      } else {
        assert Joined(cut.lines) + (cut.tail + [b]) == Joined(cut.lines) + cut.tail + [b];
      }
    }
  }

  /** The lines within the limit, without one trailing carriage return. */
  function Kept(lines: seq<Line>, limit: nat): seq<Line> {
    if lines == [] then [] else
      var last := lines[|lines| - 1];
      Kept(lines[..|lines| - 1], limit) + if |last| <= limit then [TrimLineEnding(last)] else []
  }

  function TooLong(lines: seq<Line>, limit: nat): nat {
    if lines == [] then 0
    else TooLong(lines[..|lines| - 1], limit) + if |lines[|lines| - 1]| <= limit then 0 else 1
  }

  /** The automaton's state after a whole text: the unterminated tail while it fits, and the
      number of lines, the tail included, that were too long. */
  function StateAfter(bytes: seq<byte>, limit: nat, dropped: u64): LineState {
    var cut := CutLines(bytes);
    var fits := |cut.tail| <= limit;
    LineState(if fits then cut.tail else [], !fits,
              SatAdd(dropped, TooLong(cut.lines, limit) + if fits then 0 else 1))
  }

  /** Byte-at-a-time splitting equals one-shot splitting, overlong lines and all. */
  lemma {:induction false} FedIsOneShot(bytes: seq<byte>, limit: nat, dropped: u64)
    ensures FedAll(IDLE.(dropped := dropped), bytes, limit) == StateAfter(bytes, limit, dropped)
    ensures EmittedAll(IDLE.(dropped := dropped), bytes, limit) == Kept(CutLines(bytes).lines, limit)
  {
    var st := IDLE.(dropped := dropped);
    if bytes != [] {
      var front, b := bytes[..|bytes| - 1], bytes[|bytes| - 1];
      FedIsOneShot(front, limit, dropped);
      assert bytes == front + [b];
      FedInChunks(st, front, [b], limit);
      FedOne(FedAll(st, front, limit), b, limit);
      var cut := CutLines(front);
      hide FedAll, EmittedAll;
      if b == LF {
        assert (cut.lines + [cut.tail])[..|cut.lines|] == cut.lines;
      }
    }
  }

  lemma FedOne(st: LineState, b: byte, limit: nat)
    ensures FedAll(st, [b], limit) == Fed(st, b, limit) && EmittedAll(st, [b], limit) == Emitted(st, b)
  {
    assert [b][1..] == [];
  }

  // ---------- The text of the lines ----------

  /** A line of text and how it ends in the file: with LF, or with CR and LF. */
  datatype Written = Written(text: Line, crlf: bool)

  predicate EndsInCr(text: Line) {
    text != [] && text[|text| - 1] == CR
  }

  /** The text has no LF; one that itself ends in CR is not followed by LF alone. */
  predicate IsLine(w: Written) {
    LF !in w.text && (!w.crlf ==> !EndsInCr(w.text))
  }

  function Raw(w: Written): Line {
    w.text + if w.crlf then [CR] else []
  }

  function Bytes(pieces: seq<Written>): seq<byte> {
    if pieces == [] then [] else Bytes(pieces[..|pieces| - 1]) + Raw(pieces[|pieces| - 1]) + [LF]
  }

  /** The texts that fit the limit together with their CR. */
  function FittingTexts(pieces: seq<Written>, limit: nat): seq<Line> {
    if pieces == [] then [] else
      var last := pieces[|pieces| - 1];
      FittingTexts(pieces[..|pieces| - 1], limit) + if |Raw(last)| <= limit then [last.text] else []
  }

  lemma {:induction false} CutMore(bytes: seq<byte>, text: Line)
    requires LF !in text
    ensures CutLines(bytes + text) == Cut(CutLines(bytes).lines, CutLines(bytes).tail + text)
  {
    if text == [] {
      assert bytes + text == bytes;
      assert CutLines(bytes).tail + [] == CutLines(bytes).tail;
    } else {
      var front, b := text[..|text| - 1], text[|text| - 1];
      assert b in text && forall c | c in front :: c in text;
      CutMore(bytes, front);
      assert (bytes + text)[..|bytes + text| - 1] == bytes + front;
      assert CutLines(bytes).tail + front + [b] == CutLines(bytes).tail + text;
    }
  }

  lemma CutAtLf(bytes: seq<byte>)
    ensures CutLines(bytes + [LF]) == Cut(CutLines(bytes).lines + [CutLines(bytes).tail], [])
  {
    assert (bytes + [LF])[..|bytes|] == bytes;
  }

  /** Written lines are cut where they were written, and kept are the texts that fit. */
  lemma {:induction false} WrittenIsKept(pieces: seq<Written>, limit: nat)
    requires forall w | w in pieces :: IsLine(w)
    ensures CutLines(Bytes(pieces)).tail == []
    ensures Kept(CutLines(Bytes(pieces)).lines, limit) == FittingTexts(pieces, limit)
  {
    hide CutLines, Kept, Raw, IsLine;
    if pieces == [] {
      NothingCut(limit);
    } else {
      var front, last := pieces[..|pieces| - 1], pieces[|pieces| - 1];
      var before, raw := Bytes(front), Raw(last);
      assert last in pieces && forall w | w in front :: w in pieces;
      WrittenIsKept(front, limit);
      TrimmedIsText(last);
      CutMore(before, raw);
      CutAtLf(before + raw);
      assert [] + raw == raw;
      KeptMore(CutLines(before).lines, raw, limit);
    }
  }

  lemma NothingCut(limit: nat)
    ensures CutLines([]) == Cut([], []) && Kept([], limit) == []
  {
  }

  lemma KeptMore(lines: seq<Line>, raw: Line, limit: nat)
    ensures Kept(lines + [raw], limit) == Kept(lines, limit) + if |raw| <= limit then [TrimLineEnding(raw)] else []
  {
    assert (lines + [raw])[..|lines|] == lines;
  }

  lemma TrimmedIsText(w: Written)
    requires IsLine(w)
    ensures TrimLineEnding(Raw(w)) == w.text && LF !in Raw(w)
  {
    if w.crlf {
      assert (w.text + [CR])[..|w.text|] == w.text;
    } else {
      assert w.text + [] == w.text;
    }
  }

  /** What is handed out is the text: of any written lines, followed by an unterminated rest, the
      byte-at-a-time automaton emits exactly the texts that fit, whichever way each line ends. */
  lemma WrittenComesBack(pieces: seq<Written>, rest: Line, limit: nat, dropped: u64)
    requires LF !in rest && forall w | w in pieces :: IsLine(w)
    ensures EmittedAll(IDLE.(dropped := dropped), Bytes(pieces) + rest, limit) == FittingTexts(pieces, limit)
    ensures Kept(CutLines(Bytes(pieces) + rest).lines, limit) == FittingTexts(pieces, limit)
    ensures CutLines(Bytes(pieces) + rest).tail == rest
  {
    FedIsOneShot(Bytes(pieces) + rest, limit, dropped);
    WrittenIsKept(pieces, limit);
    CutMore(Bytes(pieces), rest);
    assert [] + rest == rest;
  }

  /** In particular lines that all fit come back unchanged. */
  lemma {:induction false} FittingComeBack(texts: seq<Line>, crlf: bool, limit: nat, dropped: u64)
    requires forall t | t in texts :: LF !in t && |t| < limit && (!crlf ==> !EndsInCr(t))
    ensures EmittedAll(IDLE.(dropped := dropped), Bytes(Ended(texts, crlf)), limit) == texts
  {
    WrittenComesBack(Ended(texts, crlf), [], limit, dropped);
    assert Bytes(Ended(texts, crlf)) + [] == Bytes(Ended(texts, crlf));
    AllFit(texts, crlf, limit);
  }

  function Ended(texts: seq<Line>, crlf: bool): seq<Written> {
    seq(|texts|, i requires 0 <= i < |texts| => Written(texts[i], crlf))
  }

  lemma {:induction false} AllFit(texts: seq<Line>, crlf: bool, limit: nat)
    requires forall t | t in texts :: |t| < limit
    ensures FittingTexts(Ended(texts, crlf), limit) == texts
  {
    if texts != [] {
      var front := texts[..|texts| - 1];
      assert texts[|texts| - 1] in texts && forall t | t in front :: t in texts;
      assert Ended(texts, crlf)[..|texts| - 1] == Ended(front, crlf);
      AllFit(front, crlf, limit);
    }
  }

  /** Every text is lines written one way or the other and an unterminated rest. */
  lemma {:induction false} EveryTextIsWritten(bytes: seq<byte>) returns (pieces: seq<Written>, rest: Line)
    ensures bytes == Bytes(pieces) + rest && LF !in rest && forall w | w in pieces :: IsLine(w)
  {
    hide Bytes;
    if bytes == [] {
      pieces, rest := [], [];
      NothingWritten();
    } else {
      var front, b := bytes[..|bytes| - 1], bytes[|bytes| - 1];
      pieces, rest := EveryTextIsWritten(front);
      assert bytes == front + [b];
      if b == LF {
        var w := RawIsWritten(rest);
        BytesMore(pieces, w);
        assert forall x | x in pieces + [w] :: x in pieces || x == w;
        pieces, rest := pieces + [w], [];
        assert bytes == Bytes(pieces) + [];
      } else {
        assert Bytes(pieces) + (rest + [b]) == Bytes(pieces) + rest + [b];
        rest := rest + [b];
      }
    }
  }

  lemma NothingWritten()
    ensures Bytes([]) == []
  {
  }

  lemma BytesMore(pieces: seq<Written>, w: Written)
    ensures Bytes(pieces + [w]) == Bytes(pieces) + Raw(w) + [LF]
  {
    hide Raw;
    assert (pieces + [w])[..|pieces|] == pieces;
  }

  lemma RawIsWritten(raw: Line) returns (w: Written)
    requires LF !in raw
    ensures IsLine(w) && Raw(w) == raw
  {
    if EndsInCr(raw) {
      w := Written(raw[..|raw| - 1], true);
      assert raw == w.text + [CR];
    } else {
      w := Written(raw, false);
      assert raw + [] == raw;
    }
  }
}
