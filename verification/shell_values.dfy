/** Quoting a text for the shell, and reading a shell value back. */
module ShellValues {
  import opened Wrappers
  import opened Text

  const QUOTE: char := '\''

  /** A quote inside quotes is: close, an escaped quote, open again. */
  function Escaped(v: string): string {
    if v == "" then "" else (if v[0] == QUOTE then "'\\''" else [v[0]]) + Escaped(v[1..])
  }

  function ShellQuote(v: string): string {
    "'" + Escaped(v) + "'"
  }

  function Prefixed(before: string, rest: Option<string>): Option<string> {
    if rest.None? then None else Some(before + rest.value)
  }

  lemma PrefixedTwice(a: string, b: string, rest: Option<string>)
    ensures Prefixed(a, Prefixed(b, rest)) == Prefixed(a + b, rest) && Prefixed("", rest) == rest
  {
    if rest.Some? {
      assert a + (b + rest.value) == a + b + rest.value && "" + rest.value == rest.value;
    }
  }

  /** The value of what follows an opening quote. */
  function Unquoted(s: string): Option<string> {
    if s == "" then None
    else if s[0] != QUOTE then Prefixed([s[0]], Unquoted(s[1..]))
    else if |s| > 1 && s[1] == '\\' then
      if |s| > 3 && s[2] == QUOTE && s[3] == QUOTE then Prefixed("'", Unquoted(s[4..])) else None
    else if |s| == 1 then Some("") else None
  }

  function ShellValue(raw: string): Option<string> {
    var value := Trim(raw);
    if HasPrefix(value, "'") then Unquoted(value[1..])
    else if HasPrefix(value, "\"") then
      if |value| > 1 && value[|value| - 1] == '"' then Some(value[1..|value| - 1]) else None
    else if IsWord(value) || value == "" then Some(value) else None
  }

  /** The text that unquotes to a value is the escaped value and a closing quote, and only that. */
  lemma {:induction false} UnquotedExactly(s: string, v: string)
    ensures Unquoted(s) == Some(v) <==> s == Escaped(v) + "'"
    decreases |s|
  {
    if s != "" {
      if s[0] != QUOTE {
        if v != "" && v[0] == s[0] {
          UnquotedExactly(s[1..], v[1..]);
          assert v == [v[0]] + v[1..];
          assert Escaped(v) + "'" == [v[0]] + (Escaped(v[1..]) + "'");
          assert s == [s[0]] + s[1..];
        } else {
          EscapedStart(v);
        }
      } else if |s| > 1 && s[1] == '\\' {
        EscapedStart(v);
        if |s| > 3 && s[2] == QUOTE && s[3] == QUOTE {
          assert s == "'\\''" + s[4..];
          if v != "" && v[0] == QUOTE {
            UnquotedExactly(s[4..], v[1..]);
            assert v == "'" + v[1..];
            assert Escaped(v) + "'" == "'\\''" + (Escaped(v[1..]) + "'");
          }
        }
      } else {
        EscapedStart(v);
      }
    }
  }

  /** How an escaped value and its closing quote begin. */
  lemma EscapedStart(v: string)
    ensures var s := Escaped(v) + "'";
      if v == "" then s == "'"
      else if v[0] == QUOTE then |s| > 4 && s[..4] == "'\\''" && s[4..] == Escaped(v[1..]) + "'"
      else s[0] == v[0]
  {
    if v != "" && v[0] == QUOTE {
      assert Escaped(v) + "'" == "'\\''" + (Escaped(v[1..]) + "'");
    }
  }

  /** What begins with a quote has a value exactly when it is that value's quoting. */
  lemma QuotedExactly(raw: string, v: string)
    requires HasPrefix(Trim(raw), "'")
    ensures ShellValue(raw) == Some(v) <==> Trim(raw) == ShellQuote(v)
  {
    var value := Trim(raw);
    UnquotedExactly(value[1..], v);
    assert value == "'" + value[1..];
    assert ShellQuote(v) == "'" + (Escaped(v) + "'");
    assert ShellQuote(v)[1..] == Escaped(v) + "'";
  }

  /** Quoting any text whatever, white space around it included, and reading it gives the text. */
  lemma ShellRoundTrip(v: string, left: string, right: string)
    requires IsBlank(left) && IsBlank(right)
    ensures ShellValue(left + ShellQuote(v) + right) == Some(v)
  {
    var q := ShellQuote(v);
    assert q[0] == QUOTE && q[|q| - 1] == QUOTE;
    TrimPadded(left, q, right);
    assert HasPrefix(q, "'");
    QuotedExactly(left + q + right, v);
  }

  /** What begins with a double quote has a value exactly when it also ends with another one:
      what stands between, taken as it is. */
  lemma DoubleQuotedExactly(raw: string, v: string)
    requires HasPrefix(Trim(raw), "\"")
    ensures ShellValue(raw) == Some(v) <==> Trim(raw) == "\"" + v + "\""
  {
    var value := Trim(raw);
    var quoted := "\"" + v + "\"";
    assert quoted[1..|quoted| - 1] == v;
    if |value| > 1 && value[|value| - 1] == '"' {
      assert value == "\"" + value[1..|value| - 1] + "\"";
    }
  }

  /** Anything else is its own value, without the white space around it, exactly when there is
      none inside. */
  lemma BareExactly(raw: string, v: string)
    requires !HasPrefix(Trim(raw), "'") && !HasPrefix(Trim(raw), "\"")
    ensures ShellValue(raw) == Some(v) <==> Trim(raw) == v && forall c | c in v :: !IsSpace(c)
  {
  }

  /** One pass over the characters, as the loop reads them. */
  method ParseShellValue(raw: string) returns (r: Option<string>)
    ensures r == ShellValue(raw)
  {
    var value := Trim(raw);
    if HasPrefix(value, "'") {
      var s, output := value[1..], "";
      var i := 0;
      assert s[0..] == s;
      PrefixedTwice("", "", Unquoted(s));
      while i < |s|
        invariant 0 <= i <= |s|
        invariant Unquoted(s) == Prefixed(output, Unquoted(s[i..]))
      {
        var c := s[i];
        ghost var here := s[i..];
        i := i + 1;
        assert here[1..] == s[i..];
        if c != QUOTE {
          PrefixedTwice(output, [c], Unquoted(s[i..]));
          output := output + [c];
        } else if i < |s| && s[i] == '\\' {
          if i + 2 >= |s| || s[i + 1] != QUOTE || s[i + 2] != QUOTE {
            return None;
          }
          i := i + 3;
          assert here[4..] == s[i..];
          PrefixedTwice(output, "'", Unquoted(s[i..]));
          output := output + "'";
        } else {
          assert Unquoted(here) == if i == |s| then Some("") else None;
          assert output + "" == output;
          return if i == |s| then Some(output) else None;
        }
      }
      return None;
    }
    if HasPrefix(value, "\"") {
      return if |value| > 1 && value[|value| - 1] == '"' then Some(value[1..|value| - 1]) else None;
    }
    return if IsWord(value) || value == "" then Some(value) else None;
  }
}
