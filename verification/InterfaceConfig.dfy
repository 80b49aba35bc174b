/** Managed interface files: which specifications are valid, how one is rendered, how it is read back,
    and which interfaces a configuration text defines. */
module InterfaceConfigs {
  import opened Bytes
  import opened Text

  const MARKER := "# Managed by PMX-Cloud. Do not edit."
  const SPEC_PREFIX := "# pmx-cloud-spec: "
  const MAX_PORTS := 32
  const MAX_NAME := 15

  datatype Kind = Bridge(ports: seq<string>, stp: bool) | Vlan(parent: string, vid: nat)

  datatype Spec = Spec(name: string, address: Option<string>, kind: Kind)

  /** The JSON codec for specifications, and the CIDR parser. */
  datatype Host = Host(encode: Spec -> string, decode: string -> Option<Spec>, validCidr: string -> bool)

  /** Valid specifications decode to themselves; their encodings and valid addresses stay on one line. */
  ghost predicate Sound(h: Host) {
    && (forall s :: Valid(h, s) ==> h.decode(h.encode(s)) == Some(s))
    && (forall s :: Valid(h, s) ==> '\n' !in h.encode(s) && '\r' !in h.encode(s))
    && (forall a :: h.validCidr(a) ==> '\n' !in a && '\r' !in a)
  }

  // ---- Validation --------------------------------------------------------------------------

  predicate NameChar(c: char) {
    'a' <= c <= 'z' || 'A' <= c <= 'Z' || '0' <= c <= '9' || c == '-' || c == '_' || c == '.'
  }

  predicate IfName(s: string) {
    && s != "" && |s| <= MAX_NAME
    && (forall k :: 0 <= k < |s| ==> NameChar(s[k]))
    && (forall k :: 0 <= k < |s| - 1 ==> !(s[k] == '.' && s[k + 1] == '.'))
  }

  predicate ValidPorts(ports: seq<string>, name: string) {
    && |ports| <= MAX_PORTS
    && (forall k :: 0 <= k < |ports| ==> IfName(ports[k]) && ports[k] != name)
    && (forall i, j :: 0 <= i < j < |ports| ==> ports[i] != ports[j])
  }

  predicate Valid(h: Host, s: Spec) {
    && IfName(s.name)
    && (s.address.Some? ==> h.validCidr(s.address.value))
    && match s.kind
       case Bridge(ports, _) => ValidPorts(ports, s.name)
       case Vlan(parent, vid) => IfName(parent) && parent != s.name && 0 < vid <= 4094
  }

  /** An interface name has 1 to 15 characters, letters, digits, dashes, underscores and dots, and no two dots
      next to each other. */
  lemma IfNameMeans(s: string)
    ensures
      IfName(s) <==>
        && 1 <= |s| <= 15
        && (forall k :: 0 <= k < |s| ==>
              || 'a' <= s[k] <= 'z' || 'A' <= s[k] <= 'Z' || '0' <= s[k] <= '9'
              || s[k] == '-' || s[k] == '_' || s[k] == '.')
        && !(exists k :: 0 <= k < |s| - 1 && s[k] == '.' && s[k + 1] == '.')
  {
  }

  method ValidateSpec(h: Host, s: Spec) returns (ok: bool)
    ensures ok == Valid(h, s)
    ensures
      ok <==>
        && IfName(s.name) && (s.address.Some? ==> h.validCidr(s.address.value))
        && (s.kind.Bridge? ==>
              && |s.kind.ports| <= 32 && (forall p :: p in s.kind.ports ==> IfName(p) && p != s.name)
              && forall i, j :: 0 <= i < j < |s.kind.ports| ==> s.kind.ports[i] != s.kind.ports[j])
        && (s.kind.Vlan? ==> IfName(s.kind.parent) && s.kind.parent != s.name && 1 <= s.kind.vid <= 4094)
  {
    if !IfName(s.name) || (s.address.Some? && !h.validCidr(s.address.value)) {
      return false;
    }
    match s.kind
    case Vlan(parent, vid) =>
      return IfName(parent) && parent != s.name && 0 < vid <= 4094;
    case Bridge(ports, _) =>
      if |ports| > MAX_PORTS {
        return false;
      }
      var unique: set<string> := {};
      for k := 0 to |ports|
        invariant ValidPorts(ports[..k], s.name)
        invariant forall x :: x in unique <==> x in ports[..k]
      {
        assert ports[..k + 1] == ports[..k] + [ports[k]];
        if !IfName(ports[k]) || ports[k] == s.name || ports[k] in unique {
          RefusedPort(ports, s.name, k);
          return false;
        }
        unique := unique + {ports[k]};
      }
      assert ports[..|ports|] == ports;
      return true;
  }

  lemma RefusedPort(ports: seq<string>, name: string, k: nat)
    requires k < |ports| && (!IfName(ports[k]) || ports[k] == name || ports[k] in ports[..k])
    ensures !ValidPorts(ports, name)
  {
    if ports[k] in ports[..k] {
      var i :| 0 <= i < k && ports[..k][i] == ports[k];
      assert ports[i] == ports[k];
    }
  }

  // ---- Rendering and reading back ----------------------------------------------------------

  /** One indented option of an interface stanza. */
  function OptionLine(keyword: string, value: string): string {
    "    " + (keyword + (" " + value))
  }

  function KindLines(kind: Kind): seq<string> {
    match kind
    case Bridge(ports, stp) =>
      [OptionLine("bridge-ports", if ports == [] then "none" else JoinWords(ports)),
       OptionLine("bridge-stp", if stp then "on" else "off"),
       OptionLine("bridge-fd", "0")]
    case Vlan(parent, _) => [OptionLine("vlan-raw-device", parent)]
  }

  function AutoLine(s: Spec): string {
    "auto" + (" " + s.name)
  }

  function IfaceLine(s: Spec): string {
    "iface" + (" " + (s.name + (" inet " + if s.address.Some? then "static" else "manual")))
  }

  function HeadLines(h: Host, s: Spec): seq<string> {
    [MARKER, SPEC_PREFIX + h.encode(s), AutoLine(s), IfaceLine(s)]
  }

  function AddressLines(s: Spec): seq<string> {
    if s.address.Some? then [OptionLine("address", s.address.value)] else []
  }

  function ConfigLines(h: Host, s: Spec): seq<string> {
    HeadLines(h, s) + (AddressLines(s) + KindLines(s.kind))
  }

  /** The text of the file that manages `s`; every line ends with a newline. */
  function Render(h: Host, s: Spec): string {
    Unlines(ConfigLines(h, s))
  }

  predicate Managed(content: string) {
    var lines := RustLines(content);
    lines != [] && lines[0] == MARKER
  }

  /** The rest of the first line that starts with the specification prefix. */
  function FindSpec(lines: seq<string>): Option<string> {
    if lines == [] then None
    else if SPEC_PREFIX <= lines[0] then Some(lines[0][|SPEC_PREFIX|..])
    else FindSpec(lines[1..])
  }

  datatype ConfigError = NotManaged | NoSpec | Undecodable | InvalidSpec | NameMismatch

  datatype Parsed = Loaded(spec: Spec) | Rejected(error: ConfigError)

  /** Only a valid specification of the interface asked for is ever loaded. */
  function Checked(h: Host, encoded: string, name: string): (r: Parsed)
    ensures r.Loaded? ==> NamedAndValid(h, r.spec, name)
  {
    match h.decode(encoded)
    case None => Rejected(Undecodable)
    case Some(s) =>
      if !Valid(h, s) then Rejected(InvalidSpec)
      else if s.name != name then Rejected(NameMismatch)
      else Loaded(s)
  }

  function Parse(h: Host, content: string, name: string): (r: Parsed)
    ensures r.Loaded? ==> NamedAndValid(h, r.spec, name)
  {
    if !Managed(content) then Rejected(NotManaged)
    else match FindSpec(RustLines(content))
      case None => Rejected(NoSpec)
      case Some(encoded) => Checked(h, encoded, name)
  }

  predicate NamedAndValid(h: Host, s: Spec, name: string) {
    s.name == name && Valid(h, s)
  }

  lemma NameIsPlain(s: string)
    requires IfName(s)
    ensures Plain(s) && Word(s) && '#' !in s
  {
    forall k | 0 <= k < |s| ensures !IsSpace(s[k]) && s[k] != '#' && s[k] != '\n' && s[k] != '\r' {
      assert NameChar(s[k]);
    }
  }

  lemma OptionPlain(keyword: string, value: string)
    requires Plain(keyword) && Plain(value)
    ensures Plain(OptionLine(keyword, value))
  {
    PlainConcat(" ", value);
    PlainConcat(keyword, " " + value);
    PlainConcat("    ", keyword + (" " + value));
  }

  lemma KindLinesPlain(h: Host, s: Spec)
    requires Valid(h, s)
    ensures AllPlain(KindLines(s.kind))
  {
    match s.kind
    case Bridge(ports, stp) =>
      PortsPlain(ports, s.name);
      OptionPlain("bridge-ports", if ports == [] then "none" else JoinWords(ports));
      OptionPlain("bridge-stp", if stp then "on" else "off");
      OptionPlain("bridge-fd", "0");
    case Vlan(parent, _) =>
      NameIsPlain(parent);
      OptionPlain("vlan-raw-device", parent);
  }

  lemma PortsPlain(ports: seq<string>, name: string)
    requires ValidPorts(ports, name)
    ensures Plain(JoinWords(ports))
  {
    forall k | 0 <= k < |ports| ensures Plain(ports[k]) {
      NameIsPlain(ports[k]);
    }
    JoinIsPlain(ports);
  }

  lemma CommentsPlain(encoded: string)
    requires Plain(encoded)
    ensures Plain(MARKER) && Plain(SPEC_PREFIX + encoded)
  {
    MarkerPlain();
    PlainConcat(SPEC_PREFIX, encoded);
  }

  lemma MarkerPlain()
    ensures Plain(MARKER)
  {
  }

  lemma AutoPlain(s: Spec)
    requires Plain(s.name)
    ensures Plain(AutoLine(s))
  {
    PlainConcat(" ", s.name);
    PlainConcat("auto", " " + s.name);
  }

  lemma HeadLinesPlain(h: Host, s: Spec)
    requires Sound(h) && Valid(h, s)
    ensures AllPlain(HeadLines(h, s))
  {
    NameIsPlain(s.name);
    CommentsPlain(h.encode(s));
    AutoPlain(s);
    IfacePlain(s);
  }

  lemma IfacePlain(s: Spec)
    requires Plain(s.name)
    ensures Plain(IfaceLine(s))
  {
    var tail := " inet " + if s.address.Some? then "static" else "manual";
    PlainConcat(s.name, tail);
    PlainConcat(" ", s.name + tail);
    PlainConcat("iface", " " + (s.name + tail));
  }

  lemma RenderedLines(h: Host, s: Spec)
    requires Sound(h) && Valid(h, s)
    ensures RustLines(Render(h, s)) == ConfigLines(h, s)
  {
    HeadLinesPlain(h, s);
    KindLinesPlain(h, s);
    if s.address.Some? {
      OptionPlain("address", s.address.value);
    }
    PlainLines(HeadLines(h, s), AddressLines(s), KindLines(s.kind));
    RustUnlines(ConfigLines(h, s));
  }

  lemma PlainLines(a: seq<string>, b: seq<string>, c: seq<string>)
    requires AllPlain(a) && AllPlain(b) && AllPlain(c)
    ensures forall k :: 0 <= k < |a + (b + c)| ==> OneLine((a + (b + c))[k])
  {
    var lines := a + (b + c);
    forall k | 0 <= k < |lines| ensures OneLine(lines[k]) {
      PlainIsOneLine(lines[k]);
    }
  }

  lemma FindSpecSecond(first: string, encoded: string, rest: seq<string>)
    requires !(SPEC_PREFIX <= first)
    ensures FindSpec([first, SPEC_PREFIX + encoded] + rest) == Some(encoded)
  {
    var lines := [first, SPEC_PREFIX + encoded] + rest;
    assert lines[1..][0] == SPEC_PREFIX + encoded;
    assert (SPEC_PREFIX + encoded)[|SPEC_PREFIX|..] == encoded;
  }

  /** The rendered file, line by line. */
  lemma RenderedText(h: Host, s: Spec)
    requires Sound(h) && Valid(h, s)
    ensures
      var lines, a := RustLines(Render(h, s)), if s.address.Some? then 1 else 0;
      && |lines| == 4 + a + (if s.kind.Bridge? then 3 else 1)
      && lines[0] == "# Managed by PMX-Cloud. Do not edit." && lines[1] == "# pmx-cloud-spec: " + h.encode(s)
      && lines[2] == "auto" + (" " + s.name)
      && lines[3] == "iface" + (" " + (s.name + (" inet " + if s.address.Some? then "static" else "manual")))
      && (s.address.Some? ==> lines[4] == "    " + ("address" + (" " + s.address.value)))
      && (s.kind.Vlan? ==> lines[4 + a] == "    " + ("vlan-raw-device" + (" " + s.kind.parent)))
      && (s.kind.Bridge? ==>
            && lines[4 + a] == "    " + ("bridge-ports" + (" " + if s.kind.ports == [] then "none"
                                                                 else JoinWords(s.kind.ports)))
            && lines[5 + a] == "    " + ("bridge-stp" + (" " + if s.kind.stp then "on" else "off"))
            && lines[6 + a] == "    " + ("bridge-fd" + (" " + "0")))
  {
    RenderedLines(h, s);
  }

  /** How a file is read that has the marker in front and a specification line: by its first such line. */
  lemma ParseMeans(h: Host, content: string, name: string, k: nat)
    requires k < |RustLines(content)| && "# pmx-cloud-spec: " <= RustLines(content)[k]
    requires forall i :: 0 <= i < k ==> !("# pmx-cloud-spec: " <= RustLines(content)[i])
    ensures
      var lines := RustLines(content);
      Parse(h, content, name) ==
        if lines[0] != "# Managed by PMX-Cloud. Do not edit." then Rejected(NotManaged)
        else match h.decode(lines[k][|"# pmx-cloud-spec: "|..])
          case None => Rejected(Undecodable)
          case Some(s) =>
            if !Valid(h, s) then Rejected(InvalidSpec) else if s.name != name then Rejected(NameMismatch) else Loaded(s)
  {
    FirstSpec(RustLines(content), k);
  }

  lemma {:induction false} FirstSpec(lines: seq<string>, k: nat)
    requires k < |lines| && SPEC_PREFIX <= lines[k] && forall i :: 0 <= i < k ==> !(SPEC_PREFIX <= lines[i])
    ensures FindSpec(lines) == Some(lines[k][|SPEC_PREFIX|..])
  {
    if k > 0 {
      FirstSpec(lines[1..], k - 1);
    }
  }

  /** A file without a specification line is not loaded. */
  lemma ParseWithoutSpec(h: Host, content: string, name: string)
    requires forall i :: 0 <= i < |RustLines(content)| ==> !("# pmx-cloud-spec: " <= RustLines(content)[i])
    ensures
      var lines := RustLines(content);
      Parse(h, content, name)
      == if lines == [] || lines[0] != "# Managed by PMX-Cloud. Do not edit." then Rejected(NotManaged)
         else Rejected(NoSpec)
  {
    NoSpecLine(RustLines(content));
  }

  lemma {:induction false} NoSpecLine(lines: seq<string>)
    requires forall i :: 0 <= i < |lines| ==> !("# pmx-cloud-spec: " <= lines[i])
    ensures FindSpec(lines) == None
  {
    if lines != [] {
      NoSpecLine(lines[1..]);
    }
  }

  /** Loading a rendered specification gives it back. */
  lemma RenderLoads(h: Host, s: Spec)
    requires Sound(h) && Valid(h, s)
    ensures Parse(h, Render(h, s), s.name) == Loaded(s) && Managed(Render(h, s))
  {
    RenderedLines(h, s);
    MarkerIsNoSpec();
    var rest := AddressLines(s) + KindLines(s.kind);
    FirstTwo(MARKER, SPEC_PREFIX + h.encode(s), AutoLine(s), IfaceLine(s), rest);
    FindSpecSecond(MARKER, h.encode(s), [AutoLine(s), IfaceLine(s)] + rest);
  }

  lemma FirstTwo(a: string, b: string, c: string, d: string, rest: seq<string>)
    ensures [a, b, c, d] + rest == [a, b] + ([c, d] + rest)
  {
  }

  lemma MarkerIsNoSpec()
    ensures !(SPEC_PREFIX <= MARKER)
  {
    assert MARKER[2] != SPEC_PREFIX[2];
  }

  // ---- Which interfaces a text defines -----------------------------------------------------

  function BeforeHash(line: string): string {
    line[..Find(line, '#')]
  }

  predicate DefinesLine(line: string, name: string) {
    var fields := Words(BeforeHash(line));
    |fields| >= 2 && fields[0] == "iface" && fields[1] == name
  }

  lemma DefinesLineMeans(line: string, name: string)
    ensures DefinesLine(line, name) <==> ["iface", name] <= Words(BeforeHash(line))
  {
    var words := Words(BeforeHash(line));
    if |words| >= 2 {
      assert words[..2] == [words[0], words[1]];
      assert ["iface", name] <= words <==> ["iface", name] == words[..2];
    }
  }

  predicate DefinedAmong(lines: seq<string>, name: string) {
    exists k :: 0 <= k < |lines| && DefinesLine(lines[k], name)
  }

  predicate Defines(content: string, name: string) {
    DefinedAmong(RustLines(content), name)
  }

  /** A text defines an interface exactly if some line, up to a hash sign, has the word iface first and the
      interface's name second. */
  lemma DefinesMeans(content: string, name: string)
    ensures
      Defines(content, name) <==>
        exists k :: 0 <= k < |RustLines(content)| && ["iface", name] <= Words(BeforeHash(RustLines(content)[k]))
  {
    var lines := RustLines(content);
    forall k | 0 <= k < |lines|
      ensures DefinesLine(lines[k], name) <==> ["iface", name] <= Words(BeforeHash(lines[k]))
    {
      DefinesLineMeans(lines[k], name);
    }
  }

  lemma DefinedInEither(a: seq<string>, b: seq<string>, name: string)
    ensures DefinedAmong(a + b, name) <==> DefinedAmong(a, name) || DefinedAmong(b, name)
  {
    var lines := a + b;
    if DefinedAmong(a, name) {
      var k :| 0 <= k < |a| && DefinesLine(a[k], name);
      assert lines[k] == a[k];
    }
    if DefinedAmong(b, name) {
      var k :| 0 <= k < |b| && DefinesLine(b[k], name);
      assert lines[|a| + k] == b[k];
    }
    if DefinedAmong(lines, name) {
      var k :| 0 <= k < |lines| && DefinesLine(lines[k], name);
      assert if k < |a| then a[k] == lines[k] else b[k - |a|] == lines[k];
    }
  }

  lemma {:induction false} HashBeyond(p: string, rest: string)
    requires '#' !in p
    ensures BeforeHash(p + rest) == p + BeforeHash(rest)
  {
    if p == "" {
      assert p + rest == rest;
    } else {
      var s := p + rest;
      assert s[1..] == p[1..] + rest && s[0] == p[0] && p[0] in p;
      HashBeyond(p[1..], rest);
      assert Find(s, '#') == 1 + Find(s[1..], '#');
      assert BeforeHash(s) == [s[0]] + BeforeHash(s[1..]);
      assert p == [p[0]] + p[1..];
    }
  }

  /** A line whose first word is not followed by a '#' is read by that word. */
  lemma FirstWord(w: string, rest: string)
    requires Word(w) && '#' !in w && (rest == "" || rest[0] == ' ')
    ensures Words(BeforeHash(w + rest)) == [w] + Words(BeforeHash(rest))
  {
    HashBeyond(w, rest);
    var tail := BeforeHash(rest);
    assert tail != "" ==> tail[0] == rest[0];
    WordsCons(w, tail);
  }

  lemma Indented(rest: string)
    ensures Words(BeforeHash("    " + rest)) == Words(BeforeHash(rest))
  {
    HashBeyond("    ", rest);
    var t := BeforeHash(rest);
    assert "    " + t == " " + (" " + (" " + (" " + t)));
    WordsSpace(t);
    WordsSpace(" " + t);
    WordsSpace(" " + (" " + t));
    WordsSpace(" " + (" " + (" " + t)));
  }

  lemma OptionDefinesNothing(keyword: string, value: string, name: string)
    requires Keyword(keyword)
    ensures !DefinesLine(OptionLine(keyword, value), name)
  {
    Indented(keyword + (" " + value));
    FirstWord(keyword, " " + value);
  }

  lemma IfaceLineDefines(s: Spec, name: string)
    requires IfName(s.name)
    ensures DefinesLine(IfaceLine(s), name) <==> name == s.name
  {
    NameIsPlain(s.name);
    var tail := " inet " + if s.address.Some? then "static" else "manual";
    FirstWord("iface", " " + (s.name + tail));
    HashBeyond(" ", s.name + tail);
    WordsSpace(BeforeHash(s.name + tail));
    FirstWord(s.name, tail);
  }

  lemma KindLinesDefineNothing(kind: Kind, name: string)
    ensures !DefinedAmong(KindLines(kind), name)
  {
    match kind
    case Bridge(ports, stp) =>
      BridgeKeywords();
      OptionsDefineNone("bridge-ports", if ports == [] then "none" else JoinWords(ports),
                        "bridge-stp", if stp then "on" else "off", "bridge-fd", "0", name);
    case Vlan(parent, _) =>
      VlanKeyword();
      OptionDefinesNothing("vlan-raw-device", parent, name);
  }

  lemma OptionsDefineNone(k1: string, v1: string, k2: string, v2: string, k3: string, v3: string, name: string)
    requires Keyword(k1) && Keyword(k2) && Keyword(k3)
    ensures !DefinedAmong([OptionLine(k1, v1), OptionLine(k2, v2), OptionLine(k3, v3)], name)
  {
    OptionDefinesNothing(k1, v1, name);
    OptionDefinesNothing(k2, v2, name);
    OptionDefinesNothing(k3, v3, name);
  }

  predicate Keyword(word: string) {
    Word(word) && '#' !in word && word != "iface"
  }

  lemma BridgeKeywords()
    ensures Keyword("bridge-ports") && Keyword("bridge-stp") && Keyword("bridge-fd")
  {
  }

  lemma VlanKeyword()
    ensures Keyword("vlan-raw-device")
  {
  }

  lemma CommentDefinesNothing(line: string, name: string)
    requires line != "" && line[0] == '#'
    ensures !DefinesLine(line, name)
  {
    assert BeforeHash(line) == "";
  }

  lemma AutoDefinesNothing(s: Spec, name: string)
    ensures !DefinesLine(AutoLine(s), name)
  {
    FirstWord("auto", " " + s.name);
  }

  /** A rendered file defines an interface if and only if it is the one it manages. */
  lemma RenderDefines(h: Host, s: Spec, name: string)
    requires Sound(h) && Valid(h, s)
    ensures Defines(Render(h, s), name) <==> name == s.name
  {
    RenderedLines(h, s);
    DefinedInEither(HeadLines(h, s), AddressLines(s) + KindLines(s.kind), name);
    HeadDefines(h, s, name);
    OptionsDefineNothing(s, name);
  }

  lemma HeadDefines(h: Host, s: Spec, name: string)
    requires IfName(s.name)
    ensures DefinedAmong(HeadLines(h, s), name) <==> name == s.name
  {
    var lines := HeadLines(h, s);
    CommentDefinesNothing(lines[0], name);
    CommentDefinesNothing(lines[1], name);
    AutoDefinesNothing(s, name);
    IfaceLineDefines(s, name);
    assert lines[2] == AutoLine(s) && lines[3] == IfaceLine(s);
  }

  lemma OptionsDefineNothing(s: Spec, name: string)
    ensures !DefinedAmong(AddressLines(s) + KindLines(s.kind), name)
  {
    DefinedInEither(AddressLines(s), KindLines(s.kind), name);
    KindLinesDefineNothing(s.kind, name);
    if s.address.Some? {
      OptionDefinesNothing("address", s.address.value, name);
    }
  }
}
