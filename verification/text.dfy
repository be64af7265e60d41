/** Lines, trimming, splitting and numbers, as the Rust string methods of those names do them. */
module Text {
  import opened Wrappers

  /** The characters with the Unicode property White_Space. */
  predicate IsSpace(c: char) {
    || '\t' <= c <= '\r' || c == ' ' || c == '\U{0085}' || c == '\U{00A0}' || c == '\U{1680}'
    || '\U{2000}' <= c <= '\U{200A}' || c == '\U{2028}' || c == '\U{2029}' || c == '\U{202F}'
    || c == '\U{205F}' || c == '\U{3000}'
  }

  // ---------- Lines ----------

  /** Where the first `c` is, or the length when there is none. */
  function IndexOf(s: string, c: char): (i: nat)
    ensures i <= |s| && c !in s[..i]
    ensures i < |s| ==> s[i] == c
  {
    if s == "" || s[0] == c then 0 else
      var rest := IndexOf(s[1..], c);
      assert s[..rest + 1] == [s[0]] + s[1..][..rest];
      rest + 1
  }

  lemma IndexOfPresent(s: string, c: char)
    requires c in s
    ensures IndexOf(s, c) < |s|
  {
    assert s[..|s|] == s;
  }

  lemma {:induction false} IndexOfFirst(s: string, c: char, rest: string)
    requires c !in s
    ensures IndexOf(s, c) == |s| && IndexOf(s + [c] + rest, c) == |s|
  {
    if s != "" {
      assert (s + [c] + rest)[1..] == s[1..] + [c] + rest;
      IndexOfFirst(s[1..], c, rest);
    }
  }

  function WithoutCr(line: string): string {
    if line != "" && line[|line| - 1] == '\r' then line[..|line| - 1] else line
  }

  /** The lines of a text; a newline, or a carriage return and a newline, ends each, and the
      last may be unterminated. */
  function Lines(s: string): seq<string>
    decreases |s|
  {
    if s == "" then [] else
      var i := IndexOf(s, '\n');
      if i == |s| then [s] else [WithoutCr(s[..i])] + Lines(s[i + 1..])
  }

  /** Each line with a newline after it. */
  function Joined(lines: seq<string>): string {
    if lines == [] then "" else lines[0] + "\n" + Joined(lines[1..])
  }

  function WithoutCrs(lines: seq<string>): seq<string> {
    seq(|lines|, i requires 0 <= i < |lines| => WithoutCr(lines[i]))
  }

  lemma {:induction false} LinesOfJoined(lines: seq<string>)
    requires forall line | line in lines :: '\n' !in line
    ensures Lines(Joined(lines)) == WithoutCrs(lines)
  {
    if lines != [] {
      var s, rest := Joined(lines), Joined(lines[1..]);
      assert lines[0] in lines;
      IndexOfFirst(lines[0], '\n', rest);
      assert s == lines[0] + ['\n'] + rest;
      assert s[..|lines[0]|] == lines[0] && s[|lines[0]| + 1..] == rest;
      LinesOfJoined(lines[1..]);
      assert WithoutCrs(lines) == [WithoutCr(lines[0])] + WithoutCrs(lines[1..]);
    }
  }

  lemma {:induction false} JoinedAppend(a: seq<string>, b: seq<string>)
    ensures Joined(a + b) == Joined(a) + Joined(b)
  {
    if a == [] {
      assert a + b == b;
    } else {
      assert (a + b)[1..] == a[1..] + b;
      JoinedAppend(a[1..], b);
    }
  }

  lemma JoinedOne(line: string)
    ensures Joined([line]) == line + "\n"
  {
    assert [line][1..] == [];
  }

  lemma {:induction false} LinesHaveNoNewline(s: string)
    ensures forall line | line in Lines(s) :: '\n' !in line
    decreases |s|
  {
    if s != "" {
      var i := IndexOf(s, '\n');
      if i == |s| {
        assert s[..i] == s;
      } else {
        LinesHaveNoNewline(s[i + 1..]);
      }
    }
  }

  // ---------- Trimming ----------

  function TrimStart(s: string): string {
    if s != "" && IsSpace(s[0]) then TrimStart(s[1..]) else s
  }

  function TrimEnd(s: string): string {
    if s != "" && IsSpace(s[|s| - 1]) then TrimEnd(s[..|s| - 1]) else s
  }

  function Trim(s: string): string {
    TrimEnd(TrimStart(s))
  }

  /** No white space at either end. */
  predicate IsTrimmed(s: string) {
    s != "" ==> !IsSpace(s[0]) && !IsSpace(s[|s| - 1])
  }

  predicate IsBlank(s: string) {
    forall c | c in s :: IsSpace(c)
  }

  /** Trimming takes white space off both ends, and nothing else. */
  lemma TrimIsMiddle(s: string) returns (left: string, right: string)
    ensures s == left + Trim(s) + right && IsBlank(left) && IsBlank(right) && IsTrimmed(Trim(s))
  {
    var t := TrimStart(s);
    left := TrimStartIsSuffix(s);
    right := TrimEndIsPrefix(t);
    if Trim(s) != "" {
      assert Trim(s)[0] == t[0];
    }
  }

  lemma {:induction false} TrimStartIsSuffix(s: string) returns (left: string)
    ensures s == left + TrimStart(s) && IsBlank(left)
    ensures TrimStart(s) != "" ==> !IsSpace(TrimStart(s)[0])
  {
    if s != "" && IsSpace(s[0]) {
      left := TrimStartIsSuffix(s[1..]);
      left := [s[0]] + left;
    } else {
      left := "";
    }
  }

  lemma {:induction false} TrimEndIsPrefix(s: string) returns (right: string)
    ensures s == TrimEnd(s) + right && IsBlank(right)
    ensures TrimEnd(s) != "" ==> !IsSpace(TrimEnd(s)[|TrimEnd(s)| - 1])
  {
    if s != "" && IsSpace(s[|s| - 1]) {
      right := TrimEndIsPrefix(s[..|s| - 1]);
      right := right + [s[|s| - 1]];
    } else {
      right := "";
    }
  }

  /** Trimming padding gives back what it surrounds. */
  lemma TrimPadded(left: string, s: string, right: string)
    requires IsBlank(left) && IsBlank(right) && IsTrimmed(s)
    ensures Trim(left + s + right) == s
  {
    assert left + s + right == left + (s + right);
    TrimStartPadded(left, s + right);
    if s == "" {
      TrimStartPadded(right, "");
      assert s + right == right && right + "" == right;
    } else {
      assert TrimStart(s + right) == s + right;
    }
    TrimEndPadded(s, if s == "" then "" else right);
  }

  lemma TrimTrimmed(s: string)
    requires IsTrimmed(s)
    ensures Trim(s) == s
  {
    TrimPadded("", s, "");
    assert "" + s + "" == s;
  }

  lemma TrimPaddedLeft(left: string, s: string)
    requires IsBlank(left) && IsTrimmed(s)
    ensures Trim(left + s) == s
  {
    TrimPadded(left, s, "");
    assert left + s + "" == left + s;
  }

  lemma TrimPaddedRight(s: string, right: string)
    requires IsBlank(right) && IsTrimmed(s)
    ensures Trim(s + right) == s
  {
    TrimPadded("", s, right);
    assert "" + s + right == s + right;
  }

  lemma {:induction false} TrimStartPadded(left: string, s: string)
    requires IsBlank(left)
    ensures TrimStart(left + s) == TrimStart(s)
  {
    if left == "" {
      assert left + s == s;
    } else {
      assert left[0] in left && (left + s)[1..] == left[1..] + s;
      TrimStartPadded(left[1..], s);
    }
  }

  lemma {:induction false} TrimEndPadded(s: string, right: string)
    requires IsBlank(right) && IsTrimmed(s)
    ensures TrimEnd(s + right) == s
  {
    if right == "" {
      assert s + right == s;
    } else {
      assert right[|right| - 1] in right && (s + right)[..|s + right| - 1] == s + right[..|right| - 1];
      TrimEndPadded(s, right[..|right| - 1]);
    }
  }

  lemma TrimKeepsFirst(s: string)
    requires s != "" && !IsSpace(s[0])
    ensures Trim(s) != "" && Trim(s)[0] == s[0]
  {
    var right := TrimEndIsPrefix(s);
    assert s[0] in s;
    assert TrimEnd(s) == "" ==> right == s;
  }

  lemma HashIsFirst(blank: string, comment: string)
    requires IsBlank(blank)
    ensures Trim(blank + "#" + comment) != "" && Trim(blank + "#" + comment)[0] == '#'
  {
    assert blank + "#" + comment == blank + ("#" + comment);
    TrimStartPadded(blank, "#" + comment);
    TrimKeepsFirst("#" + comment);
  }

  /** White space at the end makes no difference. */
  lemma TrimWithoutLast(s: string)
    requires s != "" && IsSpace(s[|s| - 1])
    ensures Trim(s[..|s| - 1]) == Trim(s)
  {
    var front, last := s[..|s| - 1], [s[|s| - 1]];
    assert s == front + last;
    var left, right := TrimIsMiddle(front);
    assert s == left + Trim(front) + (right + last);
    TrimPadded(left, Trim(front), right + last);
  }

  // ---------- Splitting ----------

  /** The text before and after the first `c`. */
  function SplitOnce(s: string, c: char): Option<(string, string)> {
    var i := IndexOf(s, c);
    if i == |s| then None else Some((s[..i], s[i + 1..]))
  }

  predicate HasPrefix(s: string, prefix: string) {
    |prefix| <= |s| && s[..|prefix|] == prefix
  }

  predicate IsWord(s: string) {
    s != "" && forall c | c in s :: !IsSpace(c)
  }

  function WordEnd(s: string): (n: nat)
    ensures n <= |s| && (s != "" && !IsSpace(s[0]) ==> n > 0)
  {
    if s == "" || IsSpace(s[0]) then 0 else 1 + WordEnd(s[1..])
  }

  /** The pieces between white space. */
  function Words(s: string): seq<string>
    decreases |s|
  {
    if s == "" then [] else if IsSpace(s[0]) then Words(s[1..]) else
      var n := WordEnd(s);
      [s[..n]] + Words(s[n..])
  }

  lemma {:induction false} WordEndOfWord(w: string, rest: string)
    requires IsWord(w) && (rest != "" ==> IsSpace(rest[0]))
    ensures WordEnd(w + rest) == |w|
  {
    assert w[0] in w;
    assert (w + rest)[1..] == w[1..] + rest;
    if |w| > 1 {
      assert forall c | c in w[1..] :: c in w;
      WordEndOfWord(w[1..], rest);
    } else {
      assert (w + rest)[1..] == rest;
    }
  }

  lemma WordsOfWord(w: string, rest: string)
    requires IsWord(w) && (rest != "" ==> IsSpace(rest[0]))
    ensures Words(w + rest) == [w] + Words(rest)
  {
    WordEndOfWord(w, rest);
    assert w[0] in w;
    assert (w + rest)[..|w|] == w && (w + rest)[|w|..] == rest;
  }

  lemma {:induction false} WordsAreWords(s: string)
    ensures forall w | w in Words(s) :: IsWord(w)
    decreases |s|
  {
    if s != "" {
      if IsSpace(s[0]) {
        WordsAreWords(s[1..]);
      } else {
        var n := WordEnd(s);
        FirstWordIsWord(s);
        WordsAreWords(s[n..]);
      }
    }
  }

  lemma {:induction false} FirstWordIsWord(s: string)
    ensures forall c | c in s[..WordEnd(s)] :: !IsSpace(c)
  {
    if s != "" && !IsSpace(s[0]) {
      FirstWordIsWord(s[1..]);
      assert s[..WordEnd(s)] == [s[0]] + s[1..][..WordEnd(s[1..])];
    }
  }

  /** A space cuts the words of a text in two. */
  lemma {:induction false} WordsApart(a: string, c: char, b: string)
    requires IsSpace(c)
    ensures Words(a + [c] + b) == Words(a) + Words(b)
    decreases |a|
  {
    var s := a + [c] + b;
    if a == "" {
      assert s[1..] == b;
    } else if IsSpace(a[0]) {
      assert s[1..] == a[1..] + [c] + b;
      WordsApart(a[1..], c, b);
    } else {
      var n := WordEnd(a);
      WordEndInside(a, [c] + b);
      assert s == a + ([c] + b);
      assert s[..n] == a[..n] && s[n..] == a[n..] + [c] + b;
      WordsApart(a[n..], c, b);
      assert [a[..n]] + Words(a[n..]) + Words(b) == [a[..n]] + (Words(a[n..]) + Words(b));
    }
  }

  lemma {:induction false} WordEndInside(a: string, rest: string)
    requires rest != "" ==> WordEnd(a) < |a| || IsSpace(rest[0])
    ensures WordEnd(a + rest) == WordEnd(a)
  {
    if a == "" {
      assert a + rest == rest;
    } else if !IsSpace(a[0]) {
      assert (a + rest)[1..] == a[1..] + rest;
      WordEndInside(a[1..], rest);
    }
  }

  /** Once a second word has begun, the first is not changed by what follows. */
  lemma {:induction false} FirstWordStays(s: string, rest: string)
    requires |Words(s)| >= 2
    ensures Words(s + rest) != [] && Words(s + rest)[0] == Words(s)[0]
  {
    if IsSpace(s[0]) {
      assert (s + rest)[1..] == s[1..] + rest;
      FirstWordStays(s[1..], rest);
    } else {
      var n := WordEnd(s);
      assert n < |s|;
      WordEndInside(s, rest);
      assert (s + rest)[..n] == s[..n];
    }
  }

  lemma {:induction false} BlankHasNoWords(s: string)
    requires IsBlank(s)
    ensures Words(s) == []
  {
    if s != "" {
      assert s[0] in s;
      BlankHasNoWords(s[1..]);
    }
  }

  lemma FirstLine(line: string, rest: string)
    requires '\n' !in line
    ensures Lines(line + "\n" + rest) == [WithoutCr(line)] + Lines(rest)
  {
    var s := line + "\n" + rest;
    IndexOfFirst(line, '\n', rest);
    assert s == line + ['\n'] + rest;
    assert s[..|line|] == line && s[|line| + 1..] == rest;
  }

  /** A text of joined lines goes on with the lines of what follows. */
  lemma {:induction false} LinesAfterJoined(lines: seq<string>, rest: string)
    requires forall line | line in lines :: '\n' !in line
    ensures Lines(Joined(lines) + rest) == WithoutCrs(lines) + Lines(rest)
  {
    hide Lines, WithoutCr;
    if lines == [] {
      assert Joined(lines) + rest == rest;
    } else {
      var after := Joined(lines[1..]) + rest;
      assert Joined(lines) + rest == lines[0] + "\n" + after;
      assert lines[0] in lines;
      FirstLine(lines[0], after);
      LinesAfterJoined(lines[1..], rest);
      assert WithoutCrs(lines) == [WithoutCr(lines[0])] + WithoutCrs(lines[1..]);
    }
  }

  lemma SplitAtFirst(before: string, c: char, after: string)
    requires c !in before
    ensures SplitOnce(before + [c] + after, c) == Some((before, after))
  {
    var s := before + [c] + after;
    IndexOfFirst(before, c, after);
    assert s[..|before|] == before && s[|before| + 1..] == after;
  }

  // ---------- ASCII case and decimal numbers ----------

  function Lower(c: char): char {
    if 'A' <= c <= 'Z' then c - 'A' + 'a' else c
  }

  predicate EqualIgnoringCase(a: string, b: string) {
    |a| == |b| && forall i | 0 <= i < |a| :: Lower(a[i]) == Lower(b[i])
  }

  type u16 = n: nat | n < 0x1_0000

  predicate IsDigit(c: char) {
    '0' <= c <= '9'
  }

  function Value(digits: string): nat
    requires forall c | c in digits :: IsDigit(c)
  {
    if digits == "" then 0 else
      var last := digits[|digits| - 1];
      assert last in digits && IsDigit(last);
      10 * Value(digits[..|digits| - 1]) + (last as nat - '0' as nat)
  }

  function Decimal(n: nat): (s: string)
    ensures s != "" && forall c | c in s :: IsDigit(c)
  {
    var digit := '0' + (n % 10) as char;
    if n < 10 then [digit] else Decimal(n / 10) + [digit]
  }

  lemma {:induction false} ValueOfDecimal(n: nat)
    ensures Value(Decimal(n)) == n
  {
    var digit := '0' + (n % 10) as char;
    if n < 10 {
      assert Decimal(n)[..0] == "";
      assert Value(Decimal(n)[..0]) == 0;
    } else {
      ValueOfDecimal(n / 10);
      assert Decimal(n)[..|Decimal(n)| - 1] == Decimal(n / 10);
    }
  }

  /** A leading plus sign is allowed; a value that does not fit is an error. */
  function ParseU16(s: string): Option<u16> {
    var digits := if s != "" && s[0] == '+' then s[1..] else s;
    if digits != "" && (forall c | c in digits :: IsDigit(c)) && Value(digits) < 0x1_0000 then Some(Value(digits))
      else None
  }

  lemma ParseU16OfDecimal(n: u16)
    ensures ParseU16(Decimal(n)) == Some(n) && IsTrimmed(Decimal(n)) && '\n' !in Decimal(n)
  {
    ValueOfDecimal(n);
    var s := Decimal(n);
    assert s[0] in s && s[|s| - 1] in s;
  }
}
