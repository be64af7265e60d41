/** Reading and writing WireGuard configuration files. */
module WireGuard {
  import opened Wrappers
  import opened Text

  datatype Interface = Interface(
    privateKey: string, address: string, listenPort: Option<u16>, postUp: Option<string>,
    postDown: Option<string>, dns: Option<string>, mtu: Option<u16>)

  datatype Peer = Peer(
    publicKey: string, presharedKey: Option<string>, allowedIps: string, endpoint: Option<string>,
    keepalive: Option<u16>)

  datatype Config = Config(interface: Interface, peers: seq<Peer>)

  const NO_INTERFACE: Interface := Interface("", "", None, None, None, None, None)
  const NO_PEER: Peer := Peer("", None, "", None, None)

  // ---------- Keys ----------

  datatype Key =
    | PrivateKey | Address | ListenPort | PostUp | PostDown | Dns | Mtu
    | PublicKey | PresharedKey | AllowedIps | Endpoint | PersistentKeepalive

  /** The spelling that is written; reading ignores its case. */
  function Name(key: Key): string {
    match key
    case PrivateKey => "PrivateKey"
    case Address => "Address"
    case ListenPort => "ListenPort"
    case PostUp => "PostUp"
    case PostDown => "PostDown"
    case Dns => "DNS"
    case Mtu => "MTU"
    case PublicKey => "PublicKey"
    case PresharedKey => "PresharedKey"
    case AllowedIps => "AllowedIPs"
    case Endpoint => "Endpoint"
    case PersistentKeepalive => "PersistentKeepalive"
  }

  function InterfaceKey(name: string): Option<Key> {
    if EqualIgnoringCase(name, "PrivateKey") then Some(PrivateKey)
    else if EqualIgnoringCase(name, "Address") then Some(Address)
    else if EqualIgnoringCase(name, "ListenPort") then Some(ListenPort)
    else if EqualIgnoringCase(name, "PostUp") then Some(PostUp)
    else if EqualIgnoringCase(name, "PostDown") then Some(PostDown)
    else if EqualIgnoringCase(name, "DNS") then Some(Dns)
    else if EqualIgnoringCase(name, "MTU") then Some(Mtu)
    else None
  }

  function PeerKey(name: string): Option<Key> {
    if EqualIgnoringCase(name, "PublicKey") then Some(PublicKey)
    else if EqualIgnoringCase(name, "PresharedKey") then Some(PresharedKey)
    else if EqualIgnoringCase(name, "AllowedIPs") then Some(AllowedIps)
    else if EqualIgnoringCase(name, "Endpoint") then Some(Endpoint)
    else if EqualIgnoringCase(name, "PersistentKeepalive") then Some(PersistentKeepalive)
    else None
  }

  predicate IsPeerKey(key: Key) {
    key.PublicKey? || key.PresharedKey? || key.AllowedIps? || key.Endpoint? || key.PersistentKeepalive?
  }

  lemma Differs(a: string, b: string)
    requires |a| != |b| || (a != "" && Lower(a[0]) != Lower(b[0]))
    ensures !EqualIgnoringCase(a, b)
  {
  }

  lemma NamesAreRead(key: Key)
    ensures if IsPeerKey(key) then PeerKey(Name(key)) == Some(key) else InterfaceKey(Name(key)) == Some(key)
  {
    if IsPeerKey(key) {
      PeerNamesAreRead(key);
    } else {
      InterfaceNamesAreRead(key);
    }
  }

  lemma InterfaceNamesAreRead(key: Key)
    requires !IsPeerKey(key)
    ensures InterfaceKey(Name(key)) == Some(key)
  {
    Differs("ListenPort", "PrivateKey");
    Differs("MTU", "DNS");
  }

  lemma PeerNamesAreRead(key: Key)
    requires IsPeerKey(key)
    ensures PeerKey(Name(key)) == Some(key)
  {
  }

  predicate IsLetter(c: char) {
    'A' <= c <= 'Z' || 'a' <= c <= 'z'
  }

  lemma NamesAreLetters(key: Key)
    ensures Name(key) != "" && forall c | c in Name(key) :: IsLetter(c)
  {
  }

  /** A key is plain text. */
  lemma NamesArePlain(key: Key)
    ensures Name(key) != "" && forall c | c in Name(key) :: c != '=' && c != '\n' && c != '[' && c != '#' && !IsSpace(c)
  {
    NamesAreLetters(key);
    hide Name;
  }

  // ---------- Reading ----------

  function SetInterface(i: Interface, key: Key, value: string): Interface {
    match key
    case PrivateKey => i.(privateKey := value)
    case Address => i.(address := value)
    case ListenPort => i.(listenPort := ParseU16(value))
    case PostUp => i.(postUp := Some(value))
    case PostDown => i.(postDown := Some(value))
    case Dns => i.(dns := Some(value))
    case Mtu => i.(mtu := ParseU16(value))
    case _ => i
  }

  function SetPeer(p: Peer, key: Key, value: string): Peer {
    match key
    case PublicKey => p.(publicKey := value)
    case PresharedKey => p.(presharedKey := Some(value))
    case AllowedIps => p.(allowedIps := value)
    case Endpoint => p.(endpoint := Some(value))
    case PersistentKeepalive => p.(keepalive := ParseU16(value))
    case _ => p
  }

  /** What has been read so far: the last section header, and the peer it opened. */
  datatype Reading = Reading(config: Config, section: string, peer: Option<Peer>)

  const NOTHING_READ: Reading := Reading(Config(NO_INTERFACE, []), "", None)

  function Closed(r: Reading): Config {
    if r.peer.None? then r.config else r.config.(peers := r.config.peers + [r.peer.value])
  }

  function Header(r: Reading, section: string): Reading {
    Reading(Closed(r), section, if EqualIgnoringCase(section, "Peer") then Some(NO_PEER) else None)
  }

  function Assigned(r: Reading, name: string, value: string): Reading {
    if EqualIgnoringCase(r.section, "Interface") then
      match InterfaceKey(name)
      case Some(key) => r.(config := r.config.(interface := SetInterface(r.config.interface, key, value)))
      case None => r
    else if EqualIgnoringCase(r.section, "Peer") && r.peer.Some? then
      match PeerKey(name)
      case Some(key) => r.(peer := Some(SetPeer(r.peer.value, key, value)))
      case None => r
    else r
  }

  function ReadLine(r: Reading, line: string): Reading {
    var t := Trim(line);
    if t == "" || t[0] == '#' then r
    else if t[0] == '[' && t[|t| - 1] == ']' then Header(r, t[1..|t| - 1])
    else
      match SplitOnce(t, '=')
      case Some((name, value)) => Assigned(r, Trim(name), Trim(value))
      case None => r
  }

  function ReadLines(r: Reading, lines: seq<string>): Reading
    decreases |lines|
  {
    if lines == [] then r else ReadLines(ReadLine(r, lines[0]), lines[1..])
  }

  function Read(content: string): Config {
    Closed(ReadLines(NOTHING_READ, Lines(content)))
  }

  method ParseWgConf(content: string) returns (config: Config)
    ensures config == Read(content)
  {
    var lines := Lines(content);
    var r := NOTHING_READ;
    var i := 0;
    while i < |lines|
      invariant 0 <= i <= |lines| && ReadLines(r, lines[i..]) == ReadLines(NOTHING_READ, lines)
    {
      var trimmed := Trim(lines[i]);
      ghost var before := r;
      if trimmed == "" || trimmed[0] == '#' {
      } else if trimmed[0] == '[' && trimmed[|trimmed| - 1] == ']' {
        if r.peer.Some? {
          r := r.(config := r.config.(peers := r.config.peers + [r.peer.value]), peer := None);
        }
        r := r.(section := trimmed[1..|trimmed| - 1]);
        if EqualIgnoringCase(r.section, "Peer") {
          r := r.(peer := Some(NO_PEER));
        }
      } else {
        var split := SplitOnce(trimmed, '=');
        if split.Some? {
          r := Assigned(r, Trim(split.value.0), Trim(split.value.1));
        }
      }
      assert r == ReadLine(before, lines[i]);
      assert lines[i..][1..] == lines[i + 1..];
      i := i + 1;
    }
    if r.peer.Some? {
      r := r.(config := r.config.(peers := r.config.peers + [r.peer.value]));
    }
    config := r.config;
  }

  // ---------- Writing ----------

  type Entry = (Key, Option<string>)

  function NonEmpty(s: string): Option<string> {
    if s == "" then None else Some(s)
  }

  function Number(n: Option<u16>): Option<string> {
    if n.None? then None else Some(Decimal(n.value))
  }

  function InterfaceEntries(i: Interface): seq<Entry> {
    [(PrivateKey, NonEmpty(i.privateKey)), (Address, NonEmpty(i.address)), (ListenPort, Number(i.listenPort)),
     (Dns, i.dns), (Mtu, Number(i.mtu)), (PostUp, i.postUp), (PostDown, i.postDown)]
  }

  function PeerEntries(p: Peer): seq<Entry> {
    [(PublicKey, NonEmpty(p.publicKey)), (PresharedKey, p.presharedKey), (AllowedIps, NonEmpty(p.allowedIps)),
     (Endpoint, p.endpoint), (PersistentKeepalive, Number(p.keepalive))]
  }

  function EntryLine(key: Key, value: string): string {
    Name(key) + " = " + value
  }

  function EntryLines(entries: seq<Entry>): seq<string> {
    if entries == [] then [] else
      (if entries[0].1.None? then [] else [EntryLine(entries[0].0, entries[0].1.value)]) + EntryLines(entries[1..])
  }

  function PeerLines(peers: seq<Peer>): seq<string> {
    if peers == [] then [] else ["", "[Peer]"] + EntryLines(PeerEntries(peers[0])) + PeerLines(peers[1..])
  }

  function WrittenLines(c: Config): seq<string> {
    ["[Interface]"] + EntryLines(InterfaceEntries(c.interface)) + PeerLines(c.peers)
  }

  function Written(c: Config): string {
    Joined(WrittenLines(c))
  }

  method WriteEntries(out: string, entries: seq<Entry>) returns (more: string)
    ensures more == out + Joined(EntryLines(entries))
  {
    hide Name, Joined, EntryLines;
    JoinedNone();
    more := out;
    var i := 0;
    while i < |entries|
      invariant 0 <= i <= |entries| && more + Joined(EntryLines(entries[i..])) == out + Joined(EntryLines(entries))
    {
      var (key, value) := entries[i];
      ghost var before := more;
      if value.Some? {
        more := more + Name(key) + " = " + value.value + "\n";
      }
      FirstEntry(entries[i..]);
      assert entries[i..][1..] == entries[i + 1..];
      assert more == before + if value.None? then "" else EntryLine(key, value.value) + "\n";
      i := i + 1;
    }
    assert entries[i..] == [] && more + "" == more;
  }

  lemma JoinedNone()
    ensures Joined([]) == "" && EntryLines([]) == [] && PeerLines([]) == []
  {
  }

  lemma FirstEntry(entries: seq<Entry>)
    requires entries != []
    ensures Joined(EntryLines(entries))
         == (if entries[0].1.None? then "" else EntryLine(entries[0].0, entries[0].1.value) + "\n")
            + Joined(EntryLines(entries[1..]))
  {
    hide EntryLine;
    if entries[0].1.Some? {
      assert EntryLines(entries)[1..] == EntryLines(entries[1..]);
    } else {
      assert EntryLines(entries) == EntryLines(entries[1..]);
    }
  }

  method WriteWgConf(config: Config) returns (out: string)
    ensures out == Written(config)
  {
    hide Joined, EntryLines, PeerLines, InterfaceEntries, PeerEntries;
    JoinedNone();
    JoinedOne("[Interface]");
    out := "[Interface]\n";
    out := WriteEntries(out, InterfaceEntries(config.interface));
    JoinedAppend(["[Interface]"], EntryLines(InterfaceEntries(config.interface)));
    JoinedAppend(["[Interface]"] + EntryLines(InterfaceEntries(config.interface)), PeerLines(config.peers));
    var i := 0;
    while i < |config.peers|
      invariant 0 <= i <= |config.peers| && out + Joined(PeerLines(config.peers[i..])) == Written(config)
    {
      var peer := config.peers[i];
      ghost var before := out;
      out := out + "\n[Peer]\n";
      out := WriteEntries(out, PeerEntries(peer));
      FirstPeer(config.peers[i..]);
      assert config.peers[i..][1..] == config.peers[i + 1..];
      assert out == before + ("\n[Peer]\n" + Joined(EntryLines(PeerEntries(peer))));
      i := i + 1;
    }
    assert config.peers[i..] == [] && out + "" == out;
  }

  lemma FirstPeer(peers: seq<Peer>)
    requires peers != []
    ensures Joined(PeerLines(peers))
         == ("\n[Peer]\n" + Joined(EntryLines(PeerEntries(peers[0])))) + Joined(PeerLines(peers[1..]))
  {
    var header, entries, rest := ["", "[Peer]"], EntryLines(PeerEntries(peers[0])), PeerLines(peers[1..]);
    assert PeerLines(peers) == header + entries + rest;
    JoinedHeader();
    hide Joined, EntryLines, PeerEntries, PeerLines;
    JoinedAppend(header, entries);
    JoinedAppend(header + entries, rest);
  }

  lemma JoinedHeader()
    ensures Joined(["", "[Peer]"]) == "\n[Peer]\n"
  {
    JoinedOne("");
    JoinedOne("[Peer]");
    JoinedAppend([""], ["[Peer]"]);
    hide Joined;
    assert [""] + ["[Peer]"] == ["", "[Peer]"];
    assert "" + "\n" + ("[Peer]" + "\n") == "\n[Peer]\n";
  }

  // ---------- Files written by hand ----------

  /** The same text but for the case of ASCII letters. */
  predicate SameLetters(a: string, b: string) {
    |a| == |b| && forall i | 0 <= i < |a| ::
      || a[i] == b[i]
      || ('A' <= a[i] <= 'Z' && b[i] as int == a[i] as int + 32)
      || ('a' <= a[i] <= 'z' && a[i] as int == b[i] as int + 32 && 'A' <= b[i] <= 'Z')
  }

  /** Keys are read whatever their case. */
  lemma CaseIsIgnored(key: Key, name: string)
    requires SameLetters(name, Name(key))
    ensures if IsPeerKey(key) then PeerKey(name) == Some(key) else InterfaceKey(name) == Some(key)
  {
    NamesAreRead(key);
    LettersAreEqual(name, Name(key));
    hide SameLetters, Name;
    SameIsSame(name, Name(key));
  }

  lemma LettersAreEqual(a: string, b: string)
    requires SameLetters(a, b)
    ensures EqualIgnoringCase(a, b)
  {
  }

  lemma SameIsSame(a: string, b: string)
    requires EqualIgnoringCase(a, b)
    ensures InterfaceKey(a) == InterfaceKey(b) && PeerKey(a) == PeerKey(b)
  {
    forall word ensures EqualIgnoringCase(a, word) == EqualIgnoringCase(b, word) {
      assert EqualIgnoringCase(b, a);
    }
    hide EqualIgnoringCase;
  }

  /** Comments and blank lines say nothing. */
  lemma CommentsAreIgnored(r: Reading, blank: string, comment: string)
    requires IsBlank(blank)
    ensures ReadLine(r, blank + "#" + comment) == r && ReadLine(r, blank) == r
  {
    hide Header, Assigned, SplitOnce;
    TrimPaddedLeft(blank, "");
    assert blank + "" == blank;
    HashIsFirst(blank, comment);
  }

  // ---------- Round trip ----------

  predicate PlainText(s: string) {
    IsTrimmed(s) && '\n' !in s
  }

  predicate PlainOption(o: Option<string>) {
    o.Some? ==> PlainText(o.value)
  }

  /** Every text field is without a newline, and without white space around it. */
  predicate Plain(c: Config) {
    PlainInterface(c.interface) && forall p | p in c.peers :: PlainPeer(p)
  }

  predicate PlainInterface(i: Interface) {
    PlainText(i.privateKey) && PlainText(i.address) && PlainOption(i.postUp) && PlainOption(i.postDown)
      && PlainOption(i.dns)
  }

  predicate PlainPeer(p: Peer) {
    PlainText(p.publicKey) && PlainOption(p.presharedKey) && PlainText(p.allowedIps) && PlainOption(p.endpoint)
  }

  lemma {:induction false} ReadLinesAppend(r: Reading, a: seq<string>, b: seq<string>)
    ensures ReadLines(r, a + b) == ReadLines(ReadLines(r, a), b)
    decreases |a|
  {
    if a == [] {
      assert a + b == b;
    } else {
      assert (a + b)[1..] == a[1..] + b;
      ReadLinesAppend(ReadLine(r, a[0]), a[1..], b);
    }
  }

  /** A key and a trimmed value come apart again at the first equals sign. */
  lemma EntrySplits(name: string, value: string) returns (rest: string)
    requires name != "" && IsTrimmed(name) && '=' !in name && IsTrimmed(value)
    ensures var t := Trim(name + " = " + value);
      && t != "" && t[0] == name[0]
      && SplitOnce(t, '=') == Some((name + " ", rest))
    ensures Trim(name + " ") == name && Trim(rest) == value
  {
    hide Trim, SplitOnce, IsTrimmed;
    TrimmedWithEquals(name, value);
    rest := if value == "" then "" else " " + value;
    var t := name + " " + ['='] + rest;
    if value == "" {
      assert name + " = " + value == t + " ";
      TrimPaddedRight(t, " ");
    } else {
      assert name + " = " + value == t;
      TrimTrimmed(t);
    }
    SplitAtFirst(name + " ", '=', rest);
    TrimPaddedRight(name, " ");
    if value == "" {
      TrimTrimmed("");
    } else {
      TrimPaddedLeft(" ", value);
    }
  }

  lemma TrimmedWithEquals(name: string, value: string)
    requires name != "" && IsTrimmed(name) && IsTrimmed(value)
    ensures IsTrimmed(name + " " + ['='] + if value == "" then "" else " " + value)
    ensures IsTrimmed("")
  {
  }

  /** A written entry reads as the assignment it was written for. */
  lemma EntryIsRead(r: Reading, key: Key, value: string)
    requires IsTrimmed(value)
    ensures ReadLine(r, EntryLine(key, value)) == Assigned(r, Name(key), value)
  {
    hide Assigned, Name, Trim, SplitOnce;
    var name := Name(key);
    NamesArePlain(key);
    assert name[0] in name && name[|name| - 1] in name;
    var rest := EntrySplits(name, value);
  }

  function AssignAll(r: Reading, entries: seq<Entry>): Reading
    decreases |entries|
  {
    if entries == [] then r else
      AssignAll(if entries[0].1.None? then r else Assigned(r, Name(entries[0].0), entries[0].1.value), entries[1..])
  }

  lemma {:induction false} EntriesAreRead(r: Reading, entries: seq<Entry>)
    requires forall e | e in entries && e.1.Some? :: PlainText(e.1.value)
    ensures ReadLines(r, EntryLines(entries)) == AssignAll(r, entries)
    decreases |entries|
  {
    hide Assigned, ReadLine, EntryLine, Name;
    if entries != [] {
      var (key, value) := entries[0];
      if value.None? {
        assert EntryLines(entries) == EntryLines(entries[1..]);
        EntriesAreRead(r, entries[1..]);
      } else {
        assert entries[0] in entries;
        EntryIsRead(r, key, value.value);
        EntriesAreRead(Assigned(r, Name(key), value.value), entries[1..]);
        assert EntryLines(entries) == [EntryLine(key, value.value)] + EntryLines(entries[1..]);
      }
    }
  }

  const INTERFACE_OPEN: Reading := Reading(Config(NO_INTERFACE, []), "Interface", None)

  /** The interface's entries, read after its header, give the interface. */
  lemma InterfaceIsRead(i: Interface)
    requires PlainInterface(i)
    ensures ReadLines(INTERFACE_OPEN, EntryLines(InterfaceEntries(i)))
         == INTERFACE_OPEN.(config := Config(i, []))
  {
    var r, entries := INTERFACE_OPEN, InterfaceEntries(i);
    NumberIsPlain(i.listenPort);
    NumberIsPlain(i.mtu);
    EntriesAreRead(r, entries);
    InterfaceIsAssigned(i);
  }

  lemma NumberIsPlain(n: Option<u16>)
    ensures PlainOption(Number(n)) && (n.Some? ==> ParseU16(Number(n).value) == n)
  {
    if n.Some? {
      ParseU16OfDecimal(n.value);
    }
  }

  lemma AssignInterface(i: Interface, key: Key, value: string)
    requires !IsPeerKey(key)
    ensures Assigned(INTERFACE_OPEN.(config := Config(i, [])), Name(key), value)
         == INTERFACE_OPEN.(config := Config(SetInterface(i, key, value), []))
  {
    hide Name, InterfaceKey, SetInterface;
    NamesAreRead(key);
  }

  function SetAll(i: Interface, entries: seq<Entry>): Interface
    decreases |entries|
  {
    if entries == [] then i else
      SetAll(if entries[0].1.None? then i else SetInterface(i, entries[0].0, entries[0].1.value), entries[1..])
  }

  lemma {:induction false} AssignAllInterface(i: Interface, entries: seq<Entry>)
    requires forall e | e in entries :: !IsPeerKey(e.0)
    ensures AssignAll(INTERFACE_OPEN.(config := Config(i, [])), entries)
         == INTERFACE_OPEN.(config := Config(SetAll(i, entries), []))
    decreases |entries|
  {
    hide Assigned, SetInterface, Name;
    if entries != [] {
      assert entries[0] in entries;
      if entries[0].1.Some? {
        AssignInterface(i, entries[0].0, entries[0].1.value);
        AssignAllInterface(SetInterface(i, entries[0].0, entries[0].1.value), entries[1..]);
      } else {
        AssignAllInterface(i, entries[1..]);
      }
    }
  }

  lemma NextSet(i: Interface, entries: seq<Entry>, k: nat)
    requires k < |entries|
    ensures SetAll(i, entries[k..])
         == SetAll(if entries[k].1.None? then i else SetInterface(i, entries[k].0, entries[k].1.value),
           entries[k + 1..])
  {
    hide SetInterface;
    assert entries[k..][1..] == entries[k + 1..];
  }

  /** The interface with only its first `k` entries. */
  function Partial(i: Interface, k: nat): Interface {
    Interface(
      if k > 0 then i.privateKey else "", if k > 1 then i.address else "", if k > 2 then i.listenPort else None,
      if k > 5 then i.postUp else None, if k > 6 then i.postDown else None, if k > 3 then i.dns else None,
      if k > 4 then i.mtu else None)
  }

  lemma PartialStep(i: Interface, k: nat)
    requires k < 7
    ensures
      var (key, value) := InterfaceEntries(i)[k];
      Partial(i, k + 1) == if value.None? then Partial(i, k) else SetInterface(Partial(i, k), key, value.value)
  {
    hide ParseU16, Decimal;
    if k == 2 {
      NumberIsPlain(i.listenPort);
    } else if k == 4 {
      NumberIsPlain(i.mtu);
    }
  }

  lemma {:induction false} PartialIsSet(i: Interface, k: nat)
    requires k <= 7
    ensures SetAll(Partial(i, k), InterfaceEntries(i)[k..]) == i
    decreases 7 - k
  {
    if k == 7 {
      assert InterfaceEntries(i)[7..] == [];
    } else {
      PartialNext(i, k);
      PartialIsSet(i, k + 1);
    }
  }

  lemma PartialNext(i: Interface, k: nat)
    requires k < 7
    ensures SetAll(Partial(i, k), InterfaceEntries(i)[k..]) == SetAll(Partial(i, k + 1), InterfaceEntries(i)[k + 1..])
  {
    assert |InterfaceEntries(i)| == 7;
    hide InterfaceEntries, Partial, SetInterface, SetAll;
    PartialStep(i, k);
    NextSet(Partial(i, k), InterfaceEntries(i), k);
  }

  lemma InterfaceIsAssigned(i: Interface)
    ensures AssignAll(INTERFACE_OPEN, InterfaceEntries(i)) == INTERFACE_OPEN.(config := Config(i, []))
  {
    hide AssignAll, SetAll;
    var entries := InterfaceEntries(i);
    AssignAllInterface(NO_INTERFACE, entries);
    PartialIsSet(i, 0);
    assert entries[0..] == entries;
  }

  // The same for one peer, whatever was read before it.

  function PeerOpen(c: Config, p: Peer): Reading {
    Reading(c, "Peer", Some(p))
  }

  lemma AssignPeer(c: Config, p: Peer, key: Key, value: string)
    requires IsPeerKey(key)
    ensures Assigned(PeerOpen(c, p), Name(key), value) == PeerOpen(c, SetPeer(p, key, value))
  {
    hide Name, PeerKey, SetPeer;
    NamesAreRead(key);
    Differs("Peer", "Interface");
  }

  function SetAllPeer(p: Peer, entries: seq<Entry>): Peer
    decreases |entries|
  {
    if entries == [] then p else
      SetAllPeer(if entries[0].1.None? then p else SetPeer(p, entries[0].0, entries[0].1.value), entries[1..])
  }

  lemma {:induction false} AssignAllPeer(c: Config, p: Peer, entries: seq<Entry>)
    requires forall e | e in entries :: IsPeerKey(e.0)
    ensures AssignAll(PeerOpen(c, p), entries) == PeerOpen(c, SetAllPeer(p, entries))
    decreases |entries|
  {
    hide Assigned, SetPeer, Name;
    if entries != [] {
      assert entries[0] in entries;
      if entries[0].1.Some? {
        AssignPeer(c, p, entries[0].0, entries[0].1.value);
        AssignAllPeer(c, SetPeer(p, entries[0].0, entries[0].1.value), entries[1..]);
      } else {
        AssignAllPeer(c, p, entries[1..]);
      }
    }
  }

  lemma NextSetPeer(p: Peer, entries: seq<Entry>, k: nat)
    requires k < |entries|
    ensures SetAllPeer(p, entries[k..])
         == SetAllPeer(if entries[k].1.None? then p else SetPeer(p, entries[k].0, entries[k].1.value), entries[k + 1..])
  {
    hide SetPeer;
    assert entries[k..][1..] == entries[k + 1..];
  }

  function PartialPeer(p: Peer, k: nat): Peer {
    Peer(
      if k > 0 then p.publicKey else "", if k > 1 then p.presharedKey else None, if k > 2 then p.allowedIps else "",
      if k > 3 then p.endpoint else None, if k > 4 then p.keepalive else None)
  }

  lemma PartialPeerStep(p: Peer, k: nat)
    requires k < 5
    ensures
      var (key, value) := PeerEntries(p)[k];
      PartialPeer(p, k + 1) == if value.None? then PartialPeer(p, k) else SetPeer(PartialPeer(p, k), key, value.value)
  {
    hide ParseU16;
    NumberIsPlain(p.keepalive);
  }

  lemma {:induction false} PartialPeerIsSet(p: Peer, k: nat)
    requires k <= 5
    ensures SetAllPeer(PartialPeer(p, k), PeerEntries(p)[k..]) == p
    decreases 5 - k
  {
    if k == 5 {
      assert PeerEntries(p)[5..] == [];
    } else {
      PartialPeerNext(p, k);
      PartialPeerIsSet(p, k + 1);
    }
  }

  lemma PartialPeerNext(p: Peer, k: nat)
    requires k < 5
    ensures SetAllPeer(PartialPeer(p, k), PeerEntries(p)[k..])
        == SetAllPeer(PartialPeer(p, k + 1), PeerEntries(p)[k + 1..])
  {
    assert |PeerEntries(p)| == 5;
    hide PeerEntries, PartialPeer, SetPeer, SetAllPeer;
    PartialPeerStep(p, k);
    NextSetPeer(PartialPeer(p, k), PeerEntries(p), k);
  }

  lemma PeerIsAssigned(c: Config, p: Peer)
    ensures AssignAll(PeerOpen(c, NO_PEER), PeerEntries(p)) == PeerOpen(c, p)
  {
    hide AssignAll, SetAllPeer;
    var entries := PeerEntries(p);
    AssignAllPeer(c, NO_PEER, entries);
    PartialPeerIsSet(p, 0);
    assert entries[0..] == entries;
  }

  /** A bracketed line is a section header. */
  lemma HeaderIsRead(r: Reading, section: string)
    ensures ReadLine(r, "[" + section + "]") == Header(r, section)
  {
    hide Header, SplitOnce;
    var line := "[" + section + "]";
    TrimPadded("", line, "");
    assert "" + line + "" == line;
    assert line[1..|line| - 1] == section;
  }

  lemma PeerHeader(r: Reading)
    ensures Header(r, "Peer") == PeerOpen(Closed(r), NO_PEER)
  {
  }

  lemma HeadersAreRead(r: Reading)
    ensures ReadLine(r, "[Interface]") == Header(r, "Interface")
    ensures ReadLine(r, "[Peer]") == Header(r, "Peer") == PeerOpen(Closed(r), NO_PEER)
    ensures ReadLine(r, "") == r
  {
    hide Closed;
    assert ReadLine(r, "") == r;
    hide ReadLine, Header;
    HeaderIsRead(r, "Interface");
    assert "[" + "Interface" + "]" == "[Interface]";
    HeaderIsRead(r, "Peer");
    assert "[" + "Peer" + "]" == "[Peer]";
    PeerHeader(r);
  }

  /** Any number of written peers are read back after those already there. */
  lemma {:induction false} PeersAreRead(r: Reading, peers: seq<Peer>)
    requires forall p | p in peers :: PlainPeer(p)
    ensures Closed(ReadLines(r, PeerLines(peers))) == Closed(r).(peers := Closed(r).peers + peers)
    decreases |peers|
  {
    hide ReadLine, EntryLines, PeerEntries, AssignAll;
    if peers == [] {
      assert Closed(r).peers + peers == Closed(r).peers;
    } else {
      var p, lines := peers[0], EntryLines(PeerEntries(peers[0]));
      assert p in peers;
      HeadersAreRead(r);
      assert PeerLines(peers) == ["", "[Peer]"] + (lines + PeerLines(peers[1..]));
      var open := PeerOpen(Closed(r), NO_PEER);
      TwoLines(r, "", "[Peer]", lines + PeerLines(peers[1..]));
      ReadLinesAppend(open, lines, PeerLines(peers[1..]));
      PeerEntriesArePlain(p);
      EntriesAreRead(open, PeerEntries(p));
      PeerIsAssigned(Closed(r), p);
      PeersAreRead(PeerOpen(Closed(r), p), peers[1..]);
      assert Closed(r).peers + [p] + peers[1..] == Closed(r).peers + peers;
    }
  }

  lemma TwoLines(r: Reading, a: string, b: string, rest: seq<string>)
    ensures ReadLines(r, [a, b] + rest) == ReadLines(ReadLine(ReadLine(r, a), b), rest)
  {
    hide ReadLine;
    assert ([a, b] + rest)[1..] == [b] + rest && ([b] + rest)[1..] == rest;
  }

  lemma PeerEntriesArePlain(p: Peer)
    requires PlainPeer(p)
    ensures forall e | e in PeerEntries(p) && e.1.Some? :: PlainText(e.1.value)
  {
    NumberIsPlain(p.keepalive);
  }

  /** Written lines contain no newline, and a carriage return at their end is not read. */
  lemma WrittenIsLines(c: Config)
    requires Plain(c)
    ensures Lines(Written(c)) == WithoutCrs(WrittenLines(c))
  {
    InterfaceLinesArePlain(c.interface);
    PeerLinesArePlain(c.peers);
    LinesOfJoined(WrittenLines(c));
  }

  lemma {:induction false} EntryLinesArePlain(entries: seq<Entry>)
    requires forall e | e in entries && e.1.Some? :: PlainText(e.1.value)
    ensures forall line | line in EntryLines(entries) :: '\n' !in line
  {
    hide Name;
    if entries != [] {
      NamesArePlain(entries[0].0);
      assert entries[0] in entries;
      EntryLinesArePlain(entries[1..]);
    }
  }

  lemma InterfaceLinesArePlain(i: Interface)
    requires PlainInterface(i)
    ensures forall line | line in EntryLines(InterfaceEntries(i)) :: '\n' !in line
  {
    NumberIsPlain(i.listenPort);
    NumberIsPlain(i.mtu);
    EntryLinesArePlain(InterfaceEntries(i));
  }

  lemma {:induction false} PeerLinesArePlain(peers: seq<Peer>)
    requires forall p | p in peers :: PlainPeer(p)
    ensures forall line | line in PeerLines(peers) :: '\n' !in line
  {
    hide EntryLines, PeerEntries;
    if peers != [] {
      PeerEntriesArePlain(peers[0]);
      EntryLinesArePlain(PeerEntries(peers[0]));
      PeerLinesArePlain(peers[1..]);
    }
  }

  lemma WithoutCrIsReadAlike(r: Reading, line: string)
    ensures ReadLine(r, WithoutCr(line)) == ReadLine(r, line)
  {
    if WithoutCr(line) != line {
      TrimWithoutLast(line);
    }
  }

  lemma {:induction false} WithoutCrsAreReadAlike(r: Reading, lines: seq<string>)
    ensures ReadLines(r, WithoutCrs(lines)) == ReadLines(r, lines)
    decreases |lines|
  {
    hide ReadLine;
    if lines != [] {
      WithoutCrIsReadAlike(r, lines[0]);
      WithoutCrsAreReadAlike(ReadLine(r, lines[0]), lines[1..]);
      assert WithoutCrs(lines)[1..] == WithoutCrs(lines[1..]);
    }
  }

  /** Whatever is read is plain. */
  lemma {:induction false} ReadIsPlain(r: Reading, lines: seq<string>)
    requires Plain(Closed(r)) && forall line | line in lines :: '\n' !in line
    ensures Plain(Closed(ReadLines(r, lines)))
    decreases |lines|
  {
    hide ReadLine, Plain, Closed;
    if lines != [] {
      LineKeepsPlain(r, lines[0]);
      ReadIsPlain(ReadLine(r, lines[0]), lines[1..]);
    }
  }

  lemma LineKeepsPlain(r: Reading, line: string)
    requires Plain(Closed(r)) && '\n' !in line
    ensures Plain(Closed(ReadLine(r, line)))
  {
    hide InterfaceKey, PeerKey, EqualIgnoringCase, Trim;
    var t := Trim(line);
    var left, right := TrimIsMiddle(line);
    assert '\n' !in t;
    if t == "" || t[0] == '#' {
    } else if t[0] == '[' && t[|t| - 1] == ']' {
      assert PlainPeer(NO_PEER);
    } else if SplitOnce(t, '=').Some? {
      var (name, value) := SplitOnce(t, '=').value;
      assert '\n' !in value;
      left, right := TrimIsMiddle(value);
      assert PlainText(Trim(value));
      AssignedKeepsPlain(r, Trim(name), Trim(value));
    }
  }

  lemma AssignedKeepsPlain(r: Reading, name: string, value: string)
    requires Plain(Closed(r)) && PlainText(value)
    ensures Plain(Closed(Assigned(r, name, value)))
  {
    hide InterfaceKey, PeerKey, EqualIgnoringCase, PlainText;
    var peers := r.config.peers;
    if r.peer.Some? {
      var r' := Assigned(r, name, value);
      assert (peers + [r.peer.value])[|peers|] == r.peer.value;
      assert PlainPeer(r.peer.value) && PlainPeer(r'.peer.value);
      forall p | p in peers ensures PlainPeer(p) {
        assert p in peers + [r.peer.value];
      }
    }
  }

  /** Reading what was written gives the same configuration exactly when every text in it is
      plain; this covers any number of peers, values with equals signs and every u16. */
  lemma RoundTripsExactlyWhenPlain(c: Config)
    ensures Read(Written(c)) == c <==> Plain(c)
  {
    hide Plain;
    if Plain(c) {
      PlainRoundTrips(c);
    }
    LinesHaveNoNewline(Written(c));
    NothingIsPlain();
    ReadIsPlain(NOTHING_READ, Lines(Written(c)));
  }

  lemma NothingIsPlain()
    ensures Plain(Closed(NOTHING_READ))
  {
  }

  lemma PlainRoundTrips(c: Config)
    requires Plain(c)
    ensures Read(Written(c)) == c
  {
    hide ReadLines, EntryLines, PeerLines, InterfaceEntries;
    WrittenIsLines(c);
    WithoutCrsAreReadAlike(NOTHING_READ, WrittenLines(c));
    var entries, peers := EntryLines(InterfaceEntries(c.interface)), PeerLines(c.peers);
    assert WrittenLines(c) == ["[Interface]"] + (entries + peers);
    HeadersAreRead(NOTHING_READ);
    OneLine(NOTHING_READ, "[Interface]", entries + peers);
    Differs("Interface", "Peer");
    assert ReadLine(NOTHING_READ, "[Interface]") == INTERFACE_OPEN;
    ReadLinesAppend(INTERFACE_OPEN, entries, peers);
    InterfaceIsRead(c.interface);
    PeersAreRead(INTERFACE_OPEN.(config := Config(c.interface, [])), c.peers);
    assert [] + c.peers == c.peers;
  }

  lemma OneLine(r: Reading, a: string, rest: seq<string>)
    ensures ReadLines(r, [a] + rest) == ReadLines(ReadLine(r, a), rest)
  {
    hide ReadLine;
    assert ([a] + rest)[1..] == rest;
  }

  /** Writing what was read and reading it again changes nothing, for every text. */
  lemma ReadingIsStable(content: string)
    ensures Read(Written(Read(content))) == Read(content)
  {
    hide Plain;
    LinesHaveNoNewline(content);
    NothingIsPlain();
    ReadIsPlain(NOTHING_READ, Lines(content));
    RoundTripsExactlyWhenPlain(Read(content));
  }
}
