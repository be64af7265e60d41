/** The upstream data file: one line per key, edited in place among comments and foreign lines,
    and looked up by key. */
module Upstreams {
  import opened Wrappers
  import opened Text

  datatype Kind = Domain | Subdomain | Subfolder

  // ---------- Validation ----------

  predicate IsSyntax(c: char) {
    IsSpace(c) || c in ";{}#"
  }

  predicate ValidKey(key: string) {
    key != "" && forall c | c in key :: !IsSyntax(c)
  }

  /** A site's own name stands in for an empty list of server names. */
  function NamesOrDefault(kind: Kind, domain: string, name: string, names: seq<string>): seq<string> {
    if names != [] then names else [if kind.Subdomain? then name + "." + domain else domain]
  }

  method NormalizeServerNames(kind: Kind, domain: string, name: string, names: seq<string>)
    returns (r: Result<seq<string>, ()>)
    ensures
      var all := NamesOrDefault(kind, domain, name, names);
      r == if forall n | n in all :: ValidKey(n) then Success(all) else Failure(())
  {
    var all := NamesOrDefault(kind, domain, name, names);
    var i := 0;
    while i < |all|
      invariant 0 <= i <= |all| && forall n | n in all[..i] :: ValidKey(n)
    {
      if !ValidKey(all[i]) {
        return Failure(());
      }
      i := i + 1;
    }
    assert all[..i] == all;
    return Success(all);
  }

  predicate IsAddress(text: string) {
    (HasPrefix(text, "http://") || HasPrefix(text, "https://")) && forall c | c in text :: !IsSyntax(c)
  }

  /** A blank upstream means none. */
  predicate ValidUpstream(upstream: Option<string>) {
    upstream.Some? && Trim(upstream.value) != "" ==> IsAddress(Trim(upstream.value))
  }

  predicate ValidMapKey(key: string) {
    key != "" && forall c | c in key :: 'a' <= c <= 'z' || 'A' <= c <= 'Z' || IsDigit(c) || c in "_-"
  }

  // ---------- Looking up ----------

  function BeforeHash(line: string): string {
    line[..IndexOf(line, '#')]
  }

  function WithoutSemicolons(s: string): string {
    if s != "" && s[|s| - 1] == ';' then WithoutSemicolons(s[..|s| - 1]) else s
  }

  type Entry = (string, string)

  /** A line's key and value: its first two words outside the comment. */
  function EntryOf(line: string): seq<Entry> {
    var words := Words(BeforeHash(line));
    if |words| >= 2 then [(words[0], WithoutSemicolons(words[1]))] else []
  }

  function Entries(lines: seq<string>): seq<Entry> {
    if lines == [] then [] else EntryOf(lines[0]) + Entries(lines[1..])
  }

  function Lookup(entries: seq<Entry>, keys: seq<string>): Option<string> {
    if entries == [] then None
    else if entries[0].0 in keys then Some(entries[0].1)
    else Lookup(entries[1..], keys)
  }

  method SiteUpstream(content: Option<string>, keys: seq<string>) returns (r: Option<string>)
    ensures r == Lookup(Entries(Lines(if content.Some? then content.value else "")), keys)
  {
    hide Lines, EntryOf, Entries, Lookup;
    NothingLooksUp(keys);
    var lines := Lines(if content.Some? then content.value else "");
    var i := 0;
    while i < |lines|
      invariant 0 <= i <= |lines| && Lookup(Entries(lines[i..]), keys) == Lookup(Entries(lines), keys)
    {
      assert lines[i..][1..] == lines[i + 1..];
      LookupLine(lines[i..], keys);
      var entry := EntryOf(lines[i]);
      if entry != [] && entry[0].0 in keys {
        return Some(entry[0].1);
      }
      i := i + 1;
    }
    assert lines[i..] == [];
    return None;
  }

  lemma NothingLooksUp(keys: seq<string>)
    ensures Lookup(Entries([]), keys) == None
  {
  }

  lemma LookupLine(lines: seq<string>, keys: seq<string>)
    requires lines != []
    ensures var entry := EntryOf(lines[0]);
      Lookup(Entries(lines), keys)
      == if entry != [] && entry[0].0 in keys then Some(entry[0].1) else Lookup(Entries(lines[1..]), keys)
  {
    hide EntryOf;
    AtMostOneEntry(lines[0]);
    var entry, rest := EntryOf(lines[0]), Entries(lines[1..]);
    assert if entry == [] then entry + rest == rest else (entry + rest)[1..] == rest;
  }

  lemma AtMostOneEntry(line: string)
    ensures |EntryOf(line)| <= 1
  {
  }

  // ---------- Editing ----------

  /** The first word of the whole line, comment or not. */
  function FirstWord(line: string): string {
    if Words(line) == [] then "" else Words(line)[0]
  }

  function Kept(lines: seq<string>, keys: seq<string>): seq<string> {
    if lines == [] then [] else
      (if FirstWord(lines[0]) in keys then [] else [lines[0]]) + Kept(lines[1..], keys)
  }

  function KeyText(key: string, upstream: string): string {
    key + " " + upstream + ";\n"
  }

  function NewText(keys: seq<string>, upstream: string): string {
    if keys == [] then "" else KeyText(keys[0], upstream) + NewText(keys[1..], upstream)
  }

  function Synced(content: string, keys: seq<string>, newKeys: seq<string>, upstream: Option<string>): string {
    Joined(Kept(Lines(content), keys))
    + if upstream.Some? && Trim(upstream.value) != "" then NewText(newKeys, upstream.value) else ""
  }

  /** Replace the lines of the old and new keys by lines for the new keys.  A subfolder's key is
      its map key or name; a site without server names has no new keys. */
  method SyncSiteUpstream(previous: Option<string>, kind: Kind, domain: string, name: string,
                          oldMapKey: Option<string>, newMapKey: Option<string>,
                          oldNames: seq<string>, newNames: seq<string>, upstream: Option<string>)
    returns (r: Result<string, ()>, oldKeys: seq<string>, newKeys: seq<string>)
    ensures r.Success? ==>
      && ValidUpstream(upstream) && (forall k | k in newKeys :: ValidKey(k))
      && newKeys == (if newNames == [] then []
                     else if kind.Subfolder? then [if newMapKey.Some? then newMapKey.value else name] else newNames)
      && oldKeys == (if kind.Subfolder? then [if oldMapKey.Some? then oldMapKey.value else name] else oldNames)
      && r.value == Synced(if previous.Some? then previous.value else "", oldKeys + newKeys, newKeys, upstream)
    ensures r.Failure? <==>
      || !ValidUpstream(upstream)
      || (kind.Subfolder? && !ValidMapKey(if oldMapKey.Some? then oldMapKey.value else name))
      || (newNames != [] && if kind.Subfolder? then !ValidMapKey(if newMapKey.Some? then newMapKey.value else name)
                            else exists n | n in newNames :: !ValidKey(n))
  {
    hide ValidKey, ValidUpstream, ValidMapKey, Lines, FirstWord, Trim;
    oldKeys, newKeys := oldNames, [];
    if !ValidUpstream(upstream) {
      return Failure(()), oldKeys, newKeys;
    }
    if kind.Subfolder? {
      var oldKey := if oldMapKey.Some? then oldMapKey.value else name;
      var newKey := if newMapKey.Some? then newMapKey.value else name;
      if !ValidMapKey(oldKey) || (newNames != [] && !ValidMapKey(newKey)) {
        return Failure(()), oldKeys, newKeys;
      }
      oldKeys := [oldKey];
      if newNames != [] {
        newKeys := [newKey];
        MapKeyIsKey(newKey);
      }
    } else if newNames != [] {
      var normalized := NormalizeServerNames(kind, domain, name, newNames);
      if normalized.Failure? {
        return Failure(()), oldKeys, newKeys;
      }
      newKeys := normalized.value;
    }
    var keys := oldKeys + newKeys;
    var content := KeepOthers(Lines(if previous.Some? then previous.value else ""), oldKeys + newKeys);
    if upstream.Some? && Trim(upstream.value) != "" {
      content := AddKeys(content, newKeys, upstream.value);
    } else {
      assert content + "" == content;
    }
    r := Success(content);
  }

  method KeepOthers(lines: seq<string>, keys: seq<string>) returns (content: string)
    ensures content == Joined(Kept(lines, keys))
  {
    hide Kept, Joined, FirstWord;
    NothingKept(keys);
    content := "";
    assert lines[0..] == lines && "" + Joined(Kept(lines, keys)) == Joined(Kept(lines, keys));
    var i := 0;
    while i < |lines|
      invariant 0 <= i <= |lines| && content + Joined(Kept(lines[i..], keys)) == Joined(Kept(lines, keys))
    {
      assert lines[i..][1..] == lines[i + 1..];
      KeptFirst(lines[i..], keys);
      ghost var before := content;
      if FirstWord(lines[i]) !in keys {
        content := content + lines[i] + "\n";
      }
      assert content == before + if FirstWord(lines[i]) in keys then "" else lines[i] + "\n";
      i := i + 1;
    }
    assert lines[i..] == [] && content + "" == content;
  }

  method AddKeys(head: string, keys: seq<string>, upstream: string) returns (content: string)
    ensures content == head + NewText(keys, upstream)
  {
    content := head;
    var i := 0;
    while i < |keys|
      invariant 0 <= i <= |keys| && content + NewText(keys[i..], upstream) == head + NewText(keys, upstream)
    {
      assert keys[i..][1..] == keys[i + 1..];
      content := content + KeyText(keys[i], upstream);
      i := i + 1;
    }
    assert keys[i..] == [] && content + "" == content;
  }

  lemma NothingKept(keys: seq<string>)
    ensures Joined(Kept([], keys)) == ""
  {
  }

  lemma KeptFirst(lines: seq<string>, keys: seq<string>)
    requires lines != []
    ensures Joined(Kept(lines, keys))
         == (if FirstWord(lines[0]) in keys then "" else lines[0] + "\n") + Joined(Kept(lines[1..], keys))
  {
    hide FirstWord;
    if FirstWord(lines[0]) in keys {
      assert Kept(lines, keys) == Kept(lines[1..], keys);
    } else {
      assert Kept(lines, keys)[1..] == Kept(lines[1..], keys);
    }
  }

  lemma MapKeyIsKey(key: string)
    requires ValidMapKey(key)
    ensures ValidKey(key)
  {
  }

  // ---------- Laws ----------

  function Without(entries: seq<Entry>, keys: seq<string>): seq<Entry> {
    if entries == [] then [] else
      (if entries[0].0 in keys then [] else [entries[0]]) + Without(entries[1..], keys)
  }

  function Under(keys: seq<string>, value: string): seq<Entry> {
    seq(|keys|, i requires 0 <= i < |keys| => (keys[i], value))
  }

  /** The white space an upstream begins with. */
  function Leading(s: string): string {
    if s != "" && IsSpace(s[0]) then [s[0]] + Leading(s[1..]) else ""
  }

  /** The white space it ends with. */
  function Trailing(s: string): string {
    if s != "" && IsSpace(s[|s| - 1]) then Trailing(s[..|s| - 1]) + [s[|s| - 1]] else ""
  }

  /** Written untrimmed, the upstream stands on a later line than its key, alone with a semicolon
      apart from it. */
  predicate LeavesStray(upstream: string) {
    '\n' in Leading(upstream) && Trailing(upstream) != "" && '\n' !in Trailing(upstream)
  }

  /** Where a line has an entry, its key is the line's first word: the writer, which looks at the
      whole line, removes the lines the reader, which does not look at comments, would find. */
  lemma EntryKeyIsFirstWord(line: string)
    requires EntryOf(line) != []
    ensures EntryOf(line)[0].0 == FirstWord(line)
  {
    var i := IndexOf(line, '#');
    FirstWordStays(line[..i], line[i..]);
    assert line == line[..i] + line[i..];
  }

  lemma {:induction false} KeptEntries(lines: seq<string>, keys: seq<string>)
    ensures Entries(Kept(lines, keys)) == Without(Entries(lines), keys)
  {
    hide EntryOf, FirstWord;
    if lines != [] {
      var line, rest := lines[0], lines[1..];
      KeptEntries(rest, keys);
      AtMostOneEntry(line);
      var entry := EntryOf(line);
      if entry != [] {
        EntryKeyIsFirstWord(line);
        assert (entry + Entries(rest))[1..] == Entries(rest);
      } else {
        assert entry + Entries(rest) == Entries(rest);
      }
      if FirstWord(line) in keys {
        assert Kept(lines, keys) == Kept(rest, keys);
      } else {
        assert Kept(lines, keys)[1..] == Kept(rest, keys);
        if entry != [] {
          assert entry == [entry[0]];
        }
      }
    }
  }

  /** A carriage return at the end of a line is not part of its entry. */
  lemma EntryWithoutCr(line: string)
    ensures EntryOf(WithoutCr(line)) == EntryOf(line)
  {
    if WithoutCr(line) != line {
      var front, last := line[..|line| - 1], line[|line| - 1];
      assert line == front + [last];
      var i := IndexOf(front, '#');
      if i < |front| {
        IndexOfFirst(front[..i], '#', front[i + 1..] + [last]);
        assert line == front[..i] + ['#'] + (front[i + 1..] + [last]);
        assert line[..i] == front[..i];
      } else {
        assert front[..i] == front;
        assert '#' !in line;
        IndexOfFirst(line, '#', "");
        assert line[..|line|] == line;
        WordsApart(front, last, "");
        assert front + [last] + "" == line && Words(front) + [] == Words(front);
      }
    }
  }

  lemma {:induction false} EntriesWithoutCrs(lines: seq<string>)
    ensures Entries(WithoutCrs(lines)) == Entries(lines)
  {
    hide EntryOf, WithoutCr;
    if lines != [] {
      EntryWithoutCr(lines[0]);
      EntriesWithoutCrs(lines[1..]);
      assert WithoutCrs(lines)[1..] == WithoutCrs(lines[1..]);
    }
  }

  lemma {:induction false} EntriesAppend(a: seq<string>, b: seq<string>)
    ensures Entries(a + b) == Entries(a) + Entries(b)
  {
    hide EntryOf;
    if a == [] {
      assert a + b == b;
    } else {
      assert (a + b)[1..] == a[1..] + b;
      EntriesAppend(a[1..], b);
    }
  }

  /** After an edit: the entries of other keys as they were, then those of the new lines. */
  lemma SyncedEntries(content: string, keys: seq<string>, newText: string)
    ensures Entries(Lines(Joined(Kept(Lines(content), keys)) + newText))
         == Without(Entries(Lines(content)), keys) + Entries(Lines(newText))
  {
    hide Entries, Lines;
    var kept := Kept(Lines(content), keys);
    LinesHaveNoNewline(content);
    KeptAreLines(Lines(content), keys);
    LinesAfterJoined(kept, newText);
    EntriesAppend(WithoutCrs(kept), Lines(newText));
    EntriesWithoutCrs(kept);
    KeptEntries(Lines(content), keys);
  }

  lemma {:induction false} KeptAreLines(lines: seq<string>, keys: seq<string>)
    ensures forall line | line in Kept(lines, keys) :: line in lines
  {
    hide FirstWord;
    if lines != [] {
      KeptAreLines(lines[1..], keys);
    }
  }

  /** An edit leaves out exactly the lines that begin with one of the keys; every other line, a
      comment or whatever else, stays where it was among the rest. */
  lemma {:induction false} KeptIsFilter(before: seq<string>, line: string, after: seq<string>, keys: seq<string>)
    ensures Kept(before + [line] + after, keys)
         == Kept(before, keys) + (if FirstWord(line) in keys then [] else [line]) + Kept(after, keys)
  {
    hide FirstWord;
    var own := if FirstWord(line) in keys then [] else [line];
    if before == [] {
      assert before + [line] + after == [line] + after && ([line] + after)[1..] == after;
      assert Kept(before, keys) + own + Kept(after, keys) == own + Kept(after, keys);
    } else {
      var first, rest := before[0], before[1..];
      assert (before + [line] + after)[1..] == rest + [line] + after;
      KeptIsFilter(rest, line, after, keys);
      var head := if FirstWord(first) in keys then [] else [first];
      assert head + (Kept(rest, keys) + own + Kept(after, keys)) == head + Kept(rest, keys) + own + Kept(after, keys);
    }
  }

  /** The lines of the edited file are those kept, without a carriage return at their end, and
      the new ones. */
  lemma SyncedLines(content: string, keys: seq<string>, newText: string)
    ensures Lines(Joined(Kept(Lines(content), keys)) + newText)
         == WithoutCrs(Kept(Lines(content), keys)) + Lines(newText)
  {
    hide Lines;
    LinesHaveNoNewline(content);
    KeptAreLines(Lines(content), keys);
    LinesAfterJoined(Kept(Lines(content), keys), newText);
  }

  lemma FirstWordIs(left: string, word: string, rest: string)
    requires IsBlank(left) && IsWord(word) && (rest != "" ==> IsSpace(rest[0]))
    ensures FirstWord(left + word + rest) == word
  {
    hide Words;
    BlankBefore(left, word + rest);
    assert left + word + rest == left + (word + rest);
    WordsOfWord(word, rest);
  }

  /** What follows a hash is not read. */
  lemma CommentsAreNotRead(line: string, comment: string)
    requires '#' !in line
    ensures EntryOf(line + "#" + comment) == EntryOf(line)
  {
    hide Words;
    IndexOfFirst(line, '#', comment);
    assert line + "#" + comment == line + ['#'] + comment;
    assert (line + "#" + comment)[..|line|] == line && line[..|line|] == line;
  }

  /** A line written by hand is read as its key and value, however it is spaced and with or
      without semicolons behind the value. */
  lemma HandWrittenIsRead(left: string, key: string, middle: string, value: string, semicolons: string, right: string)
    requires IsBlank(left) && IsBlank(middle) && IsBlank(right) && middle != ""
    requires IsWord(key) && IsWord(value) && '#' !in key && '#' !in value && value[|value| - 1] != ';'
    requires forall c | c in semicolons :: c == ';'
    ensures EntryOf(left + key + middle + (value + semicolons) + right) == [(key, value)]
  {
    hide Words;
    var word := value + semicolons;
    var line := left + key + middle + word + right;
    assert !IsSpace('#') && !IsSpace(';') && '#' !in line;
    PlainEntry(line);
    assert line == left + (key + (middle + (word + right)));
    BlankBefore(left, key + (middle + (word + right)));
    assert middle[0] in middle;
    WordsOfWord(key, middle + (word + right));
    BlankBefore(middle, word + right);
    assert right != "" ==> right[0] in right;
    WordsOfWord(word, right);
    BlankHasNoWords(right);
    assert [key] + ([word] + []) == [key, word];
    SemicolonsGo(value, semicolons);
  }

  lemma {:induction false} SemicolonsGo(value: string, semicolons: string)
    requires value != "" && value[|value| - 1] != ';' && forall c | c in semicolons :: c == ';'
    ensures WithoutSemicolons(value + semicolons) == value
  {
    if semicolons == "" {
      assert value + semicolons == value;
    } else {
      var front := semicolons[..|semicolons| - 1];
      assert semicolons[|semicolons| - 1] in semicolons && forall c | c in front :: c in semicolons;
      assert (value + semicolons)[..|value + semicolons| - 1] == value + front;
      SemicolonsGo(value, front);
    }
  }

  // What one new line says.

  /** The words of a new line: the key, and the trimmed upstream with the semicolon, or apart from it. */
  lemma KeyTextWords(key: string, upstream: string)
    requires ValidKey(key) && IsAddress(Trim(upstream))
    ensures
      var t := Trim(upstream);
      var words := Words(key + " " + upstream + ";");
      words == [key, t + ";"] || words == [key, t, ";"]
  {
    hide Words, Trim;
    var t := Trim(upstream);
    var left, right := TrimIsMiddle(upstream);
    WordsApart(key, ' ', upstream + ";");
    assert key + [' '] + (upstream + ";") == key + " " + upstream + ";";
    WordsOfWord(key, "");
    assert key + "" == key;
    NoWords();
    AddressIsWord(t);
    BlankBefore(left, t + right + ";");
    assert left + (t + right + ";") == upstream + ";";
    if right == "" {
      WordsOfWord(t + ";", "");
      assert t + right + ";" == t + ";" + "";
      assert Words(upstream + ";") == [t + ";"];
      assert Words(key + " " + upstream + ";") == [key] + [t + ";"] == [key, t + ";"];
    } else {
      assert right[0] in right;
      WordsOfWord(t, right + ";");
      assert t + right + ";" == t + (right + ";");
      BlankBefore(right, ";");
      WordsOfWord(";", "");
      assert ";" + "" == ";";
      assert Words(";") == [";"];
      assert Words(t + (right + ";")) == [t, ";"];
      assert Words(upstream + ";") == [t, ";"];
      assert Words(key) == [key];
      assert Words(key + " " + upstream + ";") == [key] + [t, ";"] == [key, t, ";"];
    }
  }

  lemma NoWords()
    ensures Words("") == []
  {
  }

  lemma AddressIsWord(t: string)
    requires IsAddress(t)
    ensures IsWord(t) && IsWord(t + ";") && ';' !in t && '#' !in t
  {
  }

  lemma {:induction false} BlankBefore(left: string, s: string)
    requires IsBlank(left)
    ensures Words(left + s) == Words(s)
  {
    if left == "" {
      assert left + s == s;
    } else {
      assert left[0] in left && (left + s)[1..] == left[1..] + s;
      BlankBefore(left[1..], s);
    }
  }

  /** Without comments, the words of a text are those of its lines, in order. */
  lemma {:induction false} FewWordsFewEntries(s: string)
    requires '#' !in s
    ensures |Words(s)| <= 1 ==> Entries(Lines(s)) == []
    ensures |Words(s)| == 2 ==>
      Entries(Lines(s)) == [] || Entries(Lines(s)) == [(Words(s)[0], WithoutSemicolons(Words(s)[1]))]
    decreases |s|
  {
    if s != "" {
      var i := IndexOf(s, '\n');
      if i == |s| {
        PlainEntry(s);
        assert Entries([s]) == EntryOf(s) by {
          assert [s][1..] == [] && EntryOf(s) + [] == EntryOf(s);
        }
      } else {
        var line, rest := s[..i], s[i + 1..];
        assert s == line + ['\n'] + rest;
        WordsApart(line, '\n', rest);
        EntryWithoutCr(line);
        PlainEntry(line);
        FewWordsFewEntries(rest);
        assert ([WithoutCr(line)] + Lines(rest))[1..] == Lines(rest);
        hide EntryOf, Words, Lines, Entries, WithoutSemicolons;
        TwoOfTwo(EntryOf(line), Words(line), Entries(Lines(rest)), Words(rest));
      }
    }
  }

  /** A line's entry and the rest's entries, when there are few words in all. */
  lemma TwoOfTwo(entry: seq<Entry>, words: seq<string>, more: seq<Entry>, moreWords: seq<string>)
    requires entry == if |words| >= 2 then [(words[0], WithoutSemicolons(words[1]))] else []
    requires |moreWords| <= 1 ==> more == []
    requires |moreWords| == 2 ==> more == [] || more == [(moreWords[0], WithoutSemicolons(moreWords[1]))]
    ensures |words + moreWords| <= 1 ==> entry + more == []
    ensures |words + moreWords| == 2 ==>
      entry + more == [] || entry + more == [((words + moreWords)[0], WithoutSemicolons((words + moreWords)[1]))]
  {
    hide WithoutSemicolons;
    if |words| == 0 {
      assert words + moreWords == moreWords && entry + more == more;
    } else if |words| == 2 && moreWords == [] {
      assert words + moreWords == words && entry + more == entry;
    }
  }

  lemma PlainEntry(line: string)
    requires '#' !in line
    ensures EntryOf(line) == if |Words(line)| >= 2 then [(Words(line)[0], WithoutSemicolons(Words(line)[1]))] else []
  {
    IndexOfFirst(line, '#', "");
    assert line[..|line|] == line;
  }

  lemma SemicolonsAreTrimmed(t: string)
    requires ';' !in t
    ensures WithoutSemicolons(t) == t && WithoutSemicolons(t + ";") == t && WithoutSemicolons(";") == ""
  {
    assert (t + ";")[..|t|] == t && ";"[..0] == "";
    assert t != "" ==> t[|t| - 1] in t;
  }

  /** The first of a new line's lines: what is left of the text after it has no entries when it
      already has both words. */
  lemma KeyTextEntries(key: string, upstream: string)
    requires ValidKey(key) && IsAddress(Trim(upstream))
    ensures
      var t, entries := Trim(upstream), Entries(Lines(KeyText(key, upstream)));
      entries == if '\n' !in Leading(upstream) then [(key, t)] else if LeavesStray(upstream) then [(t, "")] else []
  {
    hide Words, Trim, Entries, Lines, ValidKey, EntryOf, Leading, Trailing, IsAddress;
    if '\n' !in Leading(upstream) {
      FoundOnItsLine(key, upstream);
    } else {
      AddressIsNotEmpty(Trim(upstream));
      UpstreamParts(upstream);
      var left, right := Leading(upstream), Trailing(upstream);
      StrayEntry(key, left, Trim(upstream), right);
      assert KeyText(key, upstream) == key + " " + left + Trim(upstream) + right + ";\n";
    }
  }

  lemma AddressIsNotEmpty(t: string)
    requires IsAddress(t)
    ensures t != ""
  {
  }

  lemma FoundOnItsLine(key: string, upstream: string)
    requires ValidKey(key) && IsAddress(Trim(upstream)) && '\n' !in Leading(upstream)
    ensures Entries(Lines(KeyText(key, upstream))) == [(key, Trim(upstream))]
  {
    hide Words, Trim, Entries, Lines, IsAddress, ValidKey, EntryOf, Leading;
    var t, text := Trim(upstream), KeyText(key, upstream);
    assert text[|text| - 1] == '\n';
    IndexOfPresent(text, '\n');
    var i := IndexOf(text, '\n');
    var line, rest := text[..i], text[i + 1..];
    NoHash(key, upstream);
    KeyTextWords(key, upstream);
    var all := Words(key + " " + upstream + ";");
    WordsApart(key + " " + upstream + ";", '\n', "");
    NoWords();
    assert text == key + " " + upstream + ";" + ['\n'] + "";
    WordsApart(line, '\n', rest);
    assert text == line + ['\n'] + rest;
    assert Words(line) + Words(rest) == all;
    FirstLine(line, rest);
    assert text == line + "\n" + rest;
    EntryWithoutCr(line);
    PlainEntry(line);
    FewWordsFewEntries(rest);
    FirstEntries(WithoutCr(line), Lines(rest));
    FirstLineWords(key, upstream);
    AddressIsWord(t);
    SemicolonsAreTrimmed(t);
    assert |Words(rest)| <= 1;
    assert Words(line)[0] == all[0] && Words(line)[1] == all[1];
    assert [(key, t)] + [] == [(key, t)];
  }

  /** A text with something in it is its leading white space, its middle and its trailing one. */
  lemma UpstreamParts(s: string)
    requires Trim(s) != ""
    ensures s == Leading(s) + Trim(s) + Trailing(s) && IsBlank(Leading(s)) && IsBlank(Trailing(s))
  {
    LeadingIsBlank(s);
    var middle := Leading(s) + Trim(s);
    var right := TrimEndIsPrefix(TrimStart(s));
    assert s == middle + right;
    assert middle[|middle| - 1] == Trim(s)[|Trim(s)| - 1];
    TrailingPadded(middle, right);
  }

  lemma {:induction false} TrailingPadded(s: string, right: string)
    requires IsBlank(right) && s != "" && !IsSpace(s[|s| - 1])
    ensures Trailing(s + right) == right
  {
    if right == "" {
      assert s + right == s;
    } else {
      var front := right[..|right| - 1];
      assert right[|right| - 1] in right && (s + right)[..|s + right| - 1] == s + front;
      TrailingPadded(s, front);
    }
  }

  /** A key's text whose upstream stands on a later line. */
  lemma StrayEntry(key: string, left: string, t: string, right: string)
    requires ValidKey(key) && IsBlank(left) && IsBlank(right) && IsAddress(t) && '\n' in left
    ensures Entries(Lines(key + " " + left + t + right + ";\n"))
         == if right != "" && '\n' !in right then [(t, "")] else []
  {
    hide Words, Entries, Lines, IsAddress, ValidKey, EntryOf;
    var a, b := SplitAtLast(left, '\n');
    var head, tail := key + " " + a + "\n", b + t + right + ";\n";
    KeyAlone(key, a);
    KeyTextThen(head, tail);
    assert key + " " + left + t + right + ";\n" == head + tail;
    if '\n' in right {
      UpstreamThenNewline(b, t, right);
    } else {
      UpstreamOnOneLine(b, t, right);
    }
  }

  lemma SplitAtLast(s: string, c: char) returns (a: string, b: string)
    requires c in s
    ensures s == a + [c] + b && c !in b
  {
    if s[|s| - 1] == c {
      a, b := s[..|s| - 1], "";
    } else {
      assert s == s[..|s| - 1] + [s[|s| - 1]];
      a, b := SplitAtLast(s[..|s| - 1], c);
      b := b + [s[|s| - 1]];
    }
  }

  lemma KeyAlone(key: string, blank: string)
    requires ValidKey(key) && IsBlank(blank)
    ensures Entries(Lines(key + " " + blank + "\n")) == []
  {
    hide Words, Entries, Lines;
    var text := key + " " + blank + "\n";
    WordsOfKey(key);
    BlankHasNoWords(blank + "\n");
    WordsApart(key, ' ', blank + "\n");
    assert key + [' '] + (blank + "\n") == text;
    assert [key] + [] == [key];
    assert '#' !in text by {
      assert !IsSpace('#') && '#' !in key;
    }
    FewWordsFewEntries(text);
  }

  lemma UpstreamOnOneLine(b: string, t: string, right: string)
    requires IsBlank(b) && IsBlank(right) && IsAddress(t) && '\n' !in b && '\n' !in right
    ensures Entries(Lines(b + t + right + ";\n")) == if right != "" then [(t, "")] else []
  {
    hide Words, Entries, Lines, EntryOf;
    var line := b + t + right + ";";
    AddressIsWord(t);
    assert IsSpace('\n') && !IsSpace('#');
    FirstLine(line, "");
    assert b + t + right + ";\n" == line + "\n" + "";
    FirstEntries(WithoutCr(line), Lines(""));
    NoEntries();
    EntryWithoutCr(line);
    PlainEntry(line);
    BlankBefore(b, t + right + ";");
    assert line == b + (t + right + ";");
    NoWords();
    SemicolonsAreTrimmed(t);
    if right == "" {
      WordsOfWord(t + ";", "");
      assert t + right + ";" == t + ";" + "";
      assert [t + ";"] + [] == [t + ";"];
    } else {
      assert right[0] in right;
      WordsOfWord(t, right + ";");
      assert t + right + ";" == t + (right + ";");
      BlankBefore(right, ";");
      WordsOfWord(";", "");
      assert ";" + "" == ";" && [";"] + [] == [";"] && [t] + [";"] == [t, ";"];
    }
    assert EntryOf(line) + [] == EntryOf(line);
  }

  lemma UpstreamThenNewline(b: string, t: string, right: string)
    requires IsBlank(b) && IsBlank(right) && IsAddress(t) && '\n' !in b && '\n' in right
    ensures Entries(Lines(b + t + right + ";\n")) == []
  {
    hide Words, Entries, Lines, EntryOf, IsAddress;
    AddressIsWord(t);
    var i := IndexOf(right, '\n');
    IndexOfPresent(right, '\n');
    var r1, r2 := right[..i], right[i + 1..];
    assert right == r1 + ['\n'] + r2;
    assert IsBlank(r1) && IsBlank(r2);
    UpstreamAlone(b, t, r1);
    SemicolonAlone(r2);
    var head, tail := b + t + r1 + "\n", r2 + ";\n";
    assert b + t + right + ";\n" == head + tail;
    KeyTextThen(head, tail);
  }

  lemma UpstreamAlone(b: string, t: string, right: string)
    requires IsBlank(b) && IsBlank(right) && IsWord(t) && '#' !in t
    ensures Entries(Lines(b + t + right + "\n")) == []
  {
    hide Words, Entries, Lines, EntryOf;
    var text, tail := b + t + right + "\n", right + "\n";
    assert IsSpace('\n') && !IsSpace('#');
    BlankBefore(b, t + tail);
    assert text == b + (t + tail);
    WordsOfWord(t, tail);
    BlankHasNoWords(tail);
    assert [t] + [] == [t];
    FewWordsFewEntries(text);
  }

  lemma SemicolonAlone(blank: string)
    requires IsBlank(blank)
    ensures Entries(Lines(blank + ";\n")) == []
  {
    hide Words, Entries, Lines, EntryOf;
    assert !IsSpace('#');
    BlankBefore(blank, ";\n");
    SemicolonWord();
    FewWordsFewEntries(blank + ";\n");
  }

  lemma SemicolonWord()
    ensures Words(";\n") == [";"]
  {
    WordsOfWord(";", "\n");
    BlankHasNoWords("\n");
    assert ";" + "\n" == ";\n" && [";"] + [] == [";"];
  }

  lemma FirstEntries(line: string, rest: seq<string>)
    ensures Entries([line] + rest) == EntryOf(line) + Entries(rest)
  {
    assert ([line] + rest)[1..] == rest;
  }

  lemma NoHash(key: string, upstream: string)
    requires ValidKey(key) && IsAddress(Trim(upstream))
    ensures '#' !in KeyText(key, upstream)
  {
    hide Trim;
    var left, right := TrimIsMiddle(upstream);
    assert !IsSpace('#');
  }

  lemma {:induction false} LeadingIsBlank(s: string)
    ensures IsBlank(Leading(s)) && s == Leading(s) + TrimStart(s)
    ensures Trim(s) != "" ==> TrimStart(s) != "" && !IsSpace(TrimStart(s)[0])
  {
    if s != "" && IsSpace(s[0]) {
      LeadingIsBlank(s[1..]);
    }
  }

  /** The first line has both words exactly when the upstream does not begin with a newline
      among its leading white space. */
  lemma FirstLineWords(key: string, upstream: string)
    requires ValidKey(key) && IsAddress(Trim(upstream))
    ensures
      var text := KeyText(key, upstream);
      var line := text[..IndexOf(text, '\n')];
      if '\n' !in Leading(upstream) then |Words(line)| >= 2 else Words(line) == [key]
  {
    hide Trim, Words, IsSyntax;
    LeadingIsBlank(upstream);
    assert '\n' !in key + " " by {
      NewlineIsSyntax();
    }
    WordsOfKey(key);
    var left, body := Leading(upstream), TrimStart(upstream);
    hide TrimStart, Leading;
    if '\n' in left {
      FirstLineShort(key, left, body);
    } else {
      FirstLineLong(key, left, body);
    }
    assert KeyText(key, upstream) == key + " " + left + body + ";\n";
  }

  lemma NewlineIsSyntax()
    ensures IsSyntax('\n')
  {
  }

  lemma WordsOfKey(key: string)
    requires ValidKey(key)
    ensures Words(key) == [key]
  {
    WordsOfWord(key, "");
    assert key + "" == key && [key] + [] == [key];
  }

  lemma FirstLineShort(key: string, left: string, body: string)
    requires '\n' !in key + " " && Words(key) == [key] && IsBlank(left) && '\n' in left
    ensures var text := key + " " + left + body + ";\n"; Words(text[..IndexOf(text, '\n')]) == [key]
  {
    hide Words;
    var text, j := key + " " + left + body + ";\n", IndexOf(left, '\n');
    IndexOfPresent(left, '\n');
    var line := key + " " + left[..j];
    var rest := left[j + 1..] + body + ";\n";
    assert text == line + ['\n'] + rest by {
      assert left == left[..j] + ['\n'] + left[j + 1..];
    }
    assert '\n' !in line;
    IndexOfFirst(line, '\n', rest);
    assert text[..|line|] == line;
    WordsApart(key, ' ', left[..j]);
    assert key + [' '] + left[..j] == line;
    BlankHasNoWords(left[..j]);
    assert [key] + [] == [key];
  }

  lemma FirstLineLong(key: string, left: string, body: string)
    requires '\n' !in key + " " && Words(key) == [key] && IsBlank(left) && '\n' !in left
    requires body != "" && !IsSpace(body[0])
    ensures var text := key + " " + left + body + ";\n"; |Words(text[..IndexOf(text, '\n')])| >= 2
  {
    hide Words;
    var text, tail := key + " " + left + body + ";\n", body + ";";
    var j := IndexOf(tail, '\n');
    NotFirst(tail);
    var more := tail[..j];
    assert more[0] == body[0];
    assert '\n' !in key + " " + left;
    LineEnds(key + " " + left, tail, j);
    assert text == key + " " + left + (tail + "\n");
    WordsApart(key, ' ', left + more);
    assert key + [' '] + (left + more) == key + " " + left + more;
    BlankBefore(left, more);
    SomeWords(more);
  }

  lemma NotFirst(s: string)
    requires s != "" && !IsSpace(s[0])
    ensures IndexOf(s, '\n') > 0
  {
  }

  lemma SomeWords(s: string)
    requires s != "" && !IsSpace(s[0])
    ensures Words(s) != []
  {
  }

  lemma LineEnds(before: string, tail: string, j: nat)
    requires '\n' !in before && j == IndexOf(tail, '\n')
    ensures var text := before + (tail + "\n"); text[..IndexOf(text, '\n')] == before + tail[..j]
  {
    var line := before + tail[..j];
    var rest := if j == |tail| then "" else tail[j + 1..] + "\n";
    CutAt(tail, j);
    hide IndexOf;
    IndexOfFirst(line, '\n', rest);
    Regrouped(before, tail[..j], ['\n'], rest);
  }

  lemma Regrouped(a: string, b: string, c: string, d: string)
    ensures a + (b + c + d) == a + b + c + d && (a + b + c + d)[..|a + b|] == a + b
  {
  }

  lemma CutAt(tail: string, j: nat)
    requires j <= |tail| && (j < |tail| ==> tail[j] == '\n')
    ensures tail + "\n" == tail[..j] + ['\n'] + if j == |tail| then "" else tail[j + 1..] + "\n"
  {
    if j == |tail| {
      assert tail[..j] == tail;
    } else {
      assert tail == tail[..j] + ['\n'] + tail[j + 1..];
    }
  }

  /** All new lines. */
  lemma {:induction false} NewTextEntries(keys: seq<string>, upstream: string)
    requires (forall k | k in keys :: ValidKey(k)) && IsAddress(Trim(upstream))
    ensures '\n' !in Leading(upstream) ==> Entries(Lines(NewText(keys, upstream))) == Under(keys, Trim(upstream))
    ensures '\n' in Leading(upstream) ==>
      var entries := Entries(Lines(NewText(keys, upstream)));
      && (forall e | e in entries :: e.0 == Trim(upstream) && e.1 == "")
      && (entries != [] <==> keys != [] && LeavesStray(upstream))
  {
    hide ValidKey, IsAddress, Leading, Trailing, Trim, Entries, Lines;
    if keys == [] {
      NoEntries();
    } else {
      assert keys[0] in keys;
      KeyTextEntries(keys[0], upstream);
      NewTextEntries(keys[1..], upstream);
      var text := KeyText(keys[0], upstream);
      assert text[|text| - 1] == '\n';
      hide KeyText;
      KeyTextThen(text, NewText(keys[1..], upstream));
      assert Under(keys, Trim(upstream)) == [(keys[0], Trim(upstream))] + Under(keys[1..], Trim(upstream));
    }
  }

  lemma NoEntries()
    ensures Entries(Lines("")) == []
  {
  }

  lemma {:induction false} KeyTextThen(text: string, rest: string)
    requires text != "" && text[|text| - 1] == '\n'
    ensures Entries(Lines(text + rest)) == Entries(Lines(text)) + Entries(Lines(rest))
    decreases |text|
  {
    hide EntryOf, Lines, Entries, Words, WithoutCr;
    var i := IndexOf(text, '\n');
    assert text[|text| - 1] in text;
    IndexOfPresent(text, '\n');
    var line, more := text[..i], text[i + 1..];
    assert text == line + "\n" + more;
    assert text + rest == line + "\n" + (more + rest);
    FirstLine(line, more);
    FirstLine(line, more + rest);
    FirstEntries(WithoutCr(line), Lines(more));
    FirstEntries(WithoutCr(line), Lines(more + rest));
    if more == "" {
      assert more + rest == rest;
      NoEntries();
      assert EntryOf(WithoutCr(line)) + [] == EntryOf(WithoutCr(line));
    } else {
      assert more[|more| - 1] == '\n';
      KeyTextThen(more, rest);
    }
  }

  // ---------- Put, then get ----------

  lemma {:induction false} LookupInBoth(a: seq<Entry>, b: seq<Entry>, keys: seq<string>)
    ensures Lookup(a + b, keys) == if Lookup(a, keys).Some? then Lookup(a, keys) else Lookup(b, keys)
  {
    if a == [] {
      assert a + b == b;
    } else {
      assert (a + b)[1..] == a[1..] + b;
      LookupInBoth(a[1..], b, keys);
    }
  }

  lemma {:induction false} LookupWithout(entries: seq<Entry>, gone: seq<string>, keys: seq<string>)
    ensures (forall k | k in keys :: k in gone) ==> Lookup(Without(entries, gone), keys) == None
    ensures (forall k | k in keys :: k !in gone) ==> Lookup(Without(entries, gone), keys) == Lookup(entries, keys)
  {
    if entries != [] {
      var first, rest := entries[0], entries[1..];
      LookupWithout(rest, gone, keys);
      if first.0 in gone {
        assert Without(entries, gone) == Without(rest, gone);
      } else {
        assert Without(entries, gone)[1..] == Without(rest, gone);
      }
    }
  }

  lemma {:induction false} LookupUnder(under: seq<string>, value: string, keys: seq<string>)
    ensures Lookup(Under(under, value), keys) == if exists k :: k in under && k in keys then Some(value) else None
  {
    if under != [] {
      LookupUnder(under[1..], value, keys);
      assert Under(under, value)[1..] == Under(under[1..], value);
    }
  }

  lemma {:induction false} LookupFinds(entries: seq<Entry>, keys: seq<string>)
    ensures Lookup(entries, keys).Some? ==> exists e | e in entries :: e.0 in keys && e.1 == Lookup(entries, keys).value
  {
    if entries != [] {
      LookupFinds(entries[1..], keys);
    }
  }

  /** Every entry of the edited file: those of untouched keys as before, then one for each new
      key with the trimmed upstream, provided no newline comes before the upstream. */
  lemma SyncedExactly(content: string, keys: seq<string>, newKeys: seq<string>, upstream: Option<string>)
    requires ValidUpstream(upstream) && forall k | k in newKeys :: ValidKey(k)
    requires upstream.Some? ==> '\n' !in Leading(upstream.value)
    ensures Entries(Lines(Synced(content, keys, newKeys, upstream)))
         == Without(Entries(Lines(content)), keys)
            + if upstream.Some? && Trim(upstream.value) != "" then Under(newKeys, Trim(upstream.value)) else []
  {
    hide Entries, Lines, Kept, Without, Trim, IsAddress, ValidKey, Leading;
    if upstream.Some? && Trim(upstream.value) != "" {
      NewTextEntries(newKeys, upstream.value);
      SyncedEntries(content, keys, NewText(newKeys, upstream.value));
    } else {
      NoEntries();
      SyncedEntries(content, keys, "");
    }
  }

  /** After an edit, any of the new keys looks up the trimmed upstream, or nothing when there is
      none; and so do old keys that are not new, alone. */
  lemma NewKeysAreFound(content: string, oldKeys: seq<string>, newKeys: seq<string>, upstream: Option<string>,
                        keys: seq<string>)
    requires ValidUpstream(upstream) && forall k | k in newKeys :: ValidKey(k)
    requires upstream.Some? ==> '\n' !in Leading(upstream.value)
    requires forall k | k in keys :: k in oldKeys || k in newKeys
    ensures Lookup(Entries(Lines(Synced(content, oldKeys + newKeys, newKeys, upstream))), keys)
         == if upstream.Some? && Trim(upstream.value) != "" && exists k :: k in newKeys && k in keys
            then Some(Trim(upstream.value)) else None
  {
    hide Entries, Lines, Without, Synced, Under, Trim, ValidKey, ValidUpstream, Leading;
    var gone := oldKeys + newKeys;
    SyncedExactly(content, gone, newKeys, upstream);
    var rest := Without(Entries(Lines(content)), gone);
    LookupWithout(Entries(Lines(content)), gone, keys);
    if upstream.Some? && Trim(upstream.value) != "" {
      LookupInBoth(rest, Under(newKeys, Trim(upstream.value)), keys);
      LookupUnder(newKeys, Trim(upstream.value), keys);
    } else {
      assert rest + [] == rest;
    }
  }

  /** Looking up keys outside the old and new ones gives what it gave before the edit, unless the
      upstream left a stray line, it is itself among the keys, and there was nothing to find. */
  lemma OtherKeysAreUnchangedExactlyWhen(content: string, oldKeys: seq<string>, newKeys: seq<string>,
                                         upstream: Option<string>, keys: seq<string>)
    requires ValidUpstream(upstream) && forall k | k in newKeys :: ValidKey(k)
    requires forall k | k in keys :: k !in oldKeys && k !in newKeys
    ensures Lookup(Entries(Lines(Synced(content, oldKeys + newKeys, newKeys, upstream))), keys)
              == Lookup(Entries(Lines(content)), keys)
         <==> !(&& upstream.Some? && Trim(upstream.value) != "" && LeavesStray(upstream.value)
                && newKeys != [] && Trim(upstream.value) in keys && Lookup(Entries(Lines(content)), keys).None?)
  {
    hide Entries, Lines, Without, Under, Trim, ValidKey, IsAddress, Leading, Trailing, Kept, NewText;
    var gone := oldKeys + newKeys;
    LookupWithout(Entries(Lines(content)), gone, keys);
    var rest := Without(Entries(Lines(content)), gone);
    if upstream.Some? && Trim(upstream.value) != "" {
      var text := NewText(newKeys, upstream.value);
      SyncedEntries(content, gone, text);
      NewTextEntries(newKeys, upstream.value);
      LookupInBoth(rest, Entries(Lines(text)), keys);
      LookupUnder(newKeys, Trim(upstream.value), keys);
      if '\n' in Leading(upstream.value) {
        LookupAlike(Entries(Lines(text)), Trim(upstream.value), keys);
      }
    } else {
      NoEntries();
      SyncedEntries(content, gone, "");
      assert rest + [] == rest;
    }
  }

  lemma {:induction false} LookupAlike(entries: seq<Entry>, t: string, keys: seq<string>)
    requires forall e | e in entries :: e.0 == t && e.1 == ""
    ensures Lookup(entries, keys).Some? <==> entries != [] && t in keys
  {
    if entries != [] {
      assert entries[0] in entries;
      LookupAlike(entries[1..], t, keys);
    }
  }

  /** So it is unchanged for every accepted upstream and all keys but the upstream itself. */
  lemma OtherKeysAreUnchanged(content: string, oldKeys: seq<string>, newKeys: seq<string>, upstream: Option<string>,
                              keys: seq<string>)
    requires ValidUpstream(upstream) && forall k | k in newKeys :: ValidKey(k)
    requires forall k | k in keys :: k !in oldKeys && k !in newKeys
    requires upstream.Some? ==> Trim(upstream.value) !in keys
    ensures Lookup(Entries(Lines(Synced(content, oldKeys + newKeys, newKeys, upstream))), keys)
         == Lookup(Entries(Lines(content)), keys)
  {
    hide Entries, Lines, Synced, Trim, ValidKey, ValidUpstream, LeavesStray;
    OtherKeysAreUnchangedExactlyWhen(content, oldKeys, newKeys, upstream, keys);
  }

  /** The upstream is checked after trimming but written before it, so what was put is what is
      got exactly when no newline precedes it. */
  lemma FoundExactlyWhen(content: string, oldKeys: seq<string>, newKeys: seq<string>, upstream: string)
    requires newKeys != [] && forall k | k in newKeys :: ValidKey(k)
    requires IsAddress(Trim(upstream))
    ensures Lookup(Entries(Lines(Synced(content, oldKeys + newKeys, newKeys, Some(upstream)))), newKeys)
              == Some(Trim(upstream))
         <==> '\n' !in Leading(upstream)
  {
    hide Entries, Lines, Without, Under, Trim, ValidKey, Leading, Kept;
    AddressIsText(Trim(upstream));
    assert newKeys[0] in newKeys;
    if '\n' !in Leading(upstream) {
      NewKeysAreFound(content, oldKeys, newKeys, Some(upstream), newKeys);
    } else {
      var gone := oldKeys + newKeys;
      var text := NewText(newKeys, upstream);
      SyncedEntries(content, gone, text);
      LookupWithout(Entries(Lines(content)), gone, newKeys);
      LookupInBoth(Without(Entries(Lines(content)), gone), Entries(Lines(text)), newKeys);
      NewTextEntries(newKeys, upstream);
      LookupFinds(Entries(Lines(text)), newKeys);
    }
  }

  /** Such an upstream is accepted and written, and then not found. */
  lemma NewlineLosesUpstream(content: string)
    ensures ValidUpstream(Some("\nhttp://a"))
    ensures Lookup(Entries(Lines(Synced(content, ["app"], ["app"], Some("\nhttp://a")))), ["app"]) != Some("http://a")
  {
    hide Lookup, Entries, Lines, Synced, Trim, Leading, IsAddress, ValidKey;
    AddressAfterNewline();
    FoundExactlyWhen(content, [], ["app"], "\nhttp://a");
    assert [] + ["app"] == ["app"];
  }

  lemma AddressAfterNewline()
    ensures Trim("\nhttp://a") == "http://a" && IsAddress("http://a") && ValidKey("app")
        && '\n' in Leading("\nhttp://a")
  {
    PlainAddress();
    AddressIsWord("http://a");
    hide Trim, IsAddress, ValidKey, IsWord;
    NewlineLeads("http://a");
    assert ['\n'] + "http://a" == "\nhttp://a";
  }

  lemma PlainAddress()
    ensures IsAddress("http://a")
  {
    assert HasPrefix("http://a", "http://");
  }

  lemma NewlineLeads(t: string)
    requires t != "" && !IsSpace(t[0]) && !IsSpace(t[|t| - 1])
    ensures Trim(['\n'] + t) == t && '\n' in Leading(['\n'] + t)
  {
    hide Trim;
    TrimPadded(['\n'], t, "");
    assert ['\n'] + t + "" == ['\n'] + t;
    assert (['\n'] + t)[1..] == t && Leading(['\n'] + t)[0] == '\n';
  }

  lemma AddressIsText(t: string)
    requires IsAddress(t)
    ensures t != "" && ValidUpstream(Some(t))
  {
    AddressIsWord(t);
    assert t[0] in t && t[|t| - 1] in t;
    TrimPadded("", t, "");
    assert "" + t + "" == t;
  }
}
