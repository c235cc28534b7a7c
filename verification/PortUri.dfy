/** port:// names: the maker and parser of port-names.mjs and the independent pair of
    community/src/index.mjs. A URI outside ASCII fails both patterns, so Dafny strings lose nothing. */
module PortUri {
  import opened Identity
  import opened Text
  import SignedDirectories

  const OWNER_PREFIX := "strata:port:ed25519:"
  const SCHEME := "port://"
  const SUFFIX := "sdpn"

  /** The owner pattern: the prefix and 64 lower-case hex digits. */
  predicate ValidPortId(owner: string) {
    |owner| == 84 && owner[..20] == OWNER_PREFIX && HexText(owner[20..], 64)
  }

  // ---------------------------------------------------------------- names and paths

  predicate AtomChar(c: char) { InRange(c, 'a', 'z') || InRange(c, '0', '9') }

  predicate AtomInner(c: char) { AtomChar(c) || c == '-' }

  /** A letter, or a letter, up to thirty inner characters and an alphanumeric. */
  predicate Atom(part: string) {
    || (|part| == 1 && InRange(part[0], 'a', 'z'))
    || (&& 2 <= |part| <= 32 && InRange(part[0], 'a', 'z') && AtomChar(part[|part| - 1])
        && forall i :: 1 <= i < |part| - 1 ==> AtomInner(part[i]))
  }

  /** The community pattern: a letter, optionally followed by such a tail. */
  predicate CommunityAtom(part: string) {
    && part != "" && InRange(part[0], 'a', 'z')
    && (var tail := part[1..];
        tail == "" || (&& |tail| <= 31 && AtomChar(tail[|tail| - 1])
                       && forall i :: 0 <= i < |tail| - 1 ==> AtomInner(tail[i])))
  }

  /** Array.prototype.join('.'). */
  function Dotted(parts: seq<string>): string { if parts == [] then "" else Join(parts, '.') }

  predicate AllAtoms(labels: seq<string>, atom: string -> bool) {
    forall i :: 0 <= i < |labels| ==> atom(labels[i])
  }

  /** At most 170 characters and five labels; the empty name has none. */
  function NameParts(name: string, atom: string -> bool): Option<seq<string>> {
    var labels := if name == "" then [] else Split(name, '.');
    if |name| > 170 || |labels| > 5 || !AllAtoms(labels, atom) then None else Some(labels)
  }

  predicate SegmentChar(c: char) {
    InRange(c, 'a', 'z') || InRange(c, 'A', 'Z') || InRange(c, '0', '9') || c == '_' || c == '-'
  }

  /** Non-empty segments with one slash before each, and perhaps a final slash. */
  predicate PathShape(path: string) {
    && (path != "" ==> path[0] == '/')
    && (forall i :: 0 <= i < |path| ==> SegmentChar(path[i]) || path[i] == '/')
    && (forall i :: 0 <= i < |path| - 1 ==> !(path[i] == '/' && path[i + 1] == '/'))
  }

  function OrSlash(path: string): string { if path == "" then "/" else path }

  function SafePath(path: string): Option<string> {
    if |path| > 512 || !PathShape(path) then None else Some(OrSlash(path))
  }

  // ---------------------------------------------------------------- port-names.mjs

  function NamespaceHost(owner: string): string
    requires ValidPortId(owner)
  {
    owner[20..52] + "." + owner[52..] + "." + SUFFIX
  }

  /** None stands for the thrown error. */
  function MakePortUri(owner: string, name: string, path: string): Option<string> {
    match NameParts(name, Atom)
    case None => None
    case Some(parts) =>
      if !ValidPortId(owner) then None
      else match SafePath(path)
        case None => None
        case Some(safe) => Some(SCHEME + Join(parts + [NamespaceHost(owner)], '.') + safe)
  }

  predicate HostChar(c: char) { AtomChar(c) || c == '.' || c == '-' }

  /** Where the authority ends: the first slash, or the end. */
  function HostEnd(t: string): (n: nat)
    ensures n <= |t| && (n < |t| ==> t[n] == '/') && forall i :: 0 <= i < n ==> t[i] != '/'
  {
    if t == "" || t[0] == '/' then 0 else 1 + HostEnd(t[1..])
  }

  /** The pattern both parsers test first. */
  predicate UriShape(uri: string) {
    && |uri| <= 1024 && SCHEME <= uri
    && (var t := uri[7..];
        var n := HostEnd(t);
        n > 0 && (forall i :: 0 <= i < n ==> HostChar(t[i])) && PathShape(t[n..]))
  }

  datatype Address = Address(uri: string, name: string, owner: string, path: string, namespaceHost: string)

  /** String.replace with a final-slash pattern and the empty string. */
  function DropSlash(s: string): string { if s != "" && s[|s| - 1] == '/' then s[..|s| - 1] else s }

  /** The owner and name spelled by the labels of a host; None when the overlay suffix or the
      namespace halves are missing. */
  function ReadHost(host: string): Option<(string, string)> {
    var labels := Split(host, '.');
    var n := |labels|;
    if n < 3 || labels[n - 1] != SUFFIX || !HexText(labels[n - 3], 32) || !HexText(labels[n - 2], 32) then None
    else Some((OWNER_PREFIX + labels[n - 3] + labels[n - 2], Dotted(labels[..n - 3])))
  }

  /** The checks after the host is read; raw is the pathname as written. */
  function CheckedAddress(uri: string, owner: string, name: string, raw: string): Option<Address> {
    match SafePath(raw)
    case None => None
    case Some(path) =>
      match MakePortUri(owner, name, path)
      case None => None
      case Some(made) =>
        if made != uri && DropSlash(made) != uri then None
        else Some(Address(made, name, owner, path, NamespaceHost(owner)))
  }

  function ParsePortUri(uri: string): Option<Address> {
    if !UriShape(uri) then None
    else
      var t := uri[7..];
      var n := HostEnd(t);
      match ReadHost(t[..n])
      case None => None
      case Some((owner, name)) => CheckedAddress(uri, owner, name, t[n..])
  }

  // ---------------------------------------------------------------- community/src/index.mjs

  function CommunityPortUri(owner: string, name: string, path: string): Option<string> {
    if !ValidPortId(owner) then None
    else match NameParts(name, CommunityAtom)
      case None => None
      case Some(parts) =>
        if |path| > 512 || !PathShape(path) then None
        else
          var digest := owner[20..];
          Some(SCHEME + Join(parts + [digest[..32], digest[32..], SUFFIX], '.') + OrSlash(path))
  }

  datatype CommunityAddress = CommunityAddress(uri: string, owner: string, name: string, path: string)

  function CheckedCommunity(uri: string, owner: string, name: string, raw: string): Option<CommunityAddress> {
    match CommunityPortUri(owner, name, raw)
    case None => None
    case Some(made) =>
      if made != uri && DropSlash(made) != uri then None
      else Some(CommunityAddress(uri, owner, name, raw))
  }

  function ParseCommunityPortUri(uri: string): Option<CommunityAddress> {
    if !UriShape(uri) then None
    else
      var t := uri[7..];
      var n := HostEnd(t);
      match ReadHost(t[..n])
      case None => None
      case Some((owner, name)) => CheckedCommunity(uri, owner, name, t[n..])
  }

  // ---------------------------------------------------------------- the two makers are one

  lemma AtomsAgree(part: string)
    ensures Atom(part) <==> CommunityAtom(part)
  {
    if |part| > 1 {
      var tail := part[1..];
      assert tail[|tail| - 1] == part[|part| - 1];
      assert forall i :: 1 <= i < |part| - 1 ==> part[i] == tail[i - 1];
    }
  }

  lemma SamePartsForSameAtoms(name: string, f: string -> bool, g: string -> bool)
    requires forall part: string :: f(part) <==> g(part)
    ensures NameParts(name, f) == NameParts(name, g)
  {
    var labels := if name == "" then [] else Split(name, '.');
    assert AllAtoms(labels, f) <==> AllAtoms(labels, g);
  }

  lemma NamePartsAgree(name: string)
    ensures NameParts(name, Atom) == NameParts(name, CommunityAtom)
  {
    assert forall part: string :: Atom(part) <==> CommunityAtom(part) by {
      forall part: string
        ensures Atom(part) <==> CommunityAtom(part)
      {
        AtomsAgree(part);
      }
    }
    SamePartsForSameAtoms(name, Atom, CommunityAtom);
  }

  lemma {:induction false} JoinConcat(a: seq<string>, b: seq<string>)
    requires a != [] && b != []
    ensures Join(a + b, '.') == Join(a, '.') + "." + Join(b, '.')
  {
    if |a| == 1 {
      assert (a + b)[1..] == b;
    } else {
      assert (a + b)[1..] == a[1..] + b;
      JoinConcat(a[1..], b);
      assert a[0] + "." + (Join(a[1..], '.') + "." + Join(b, '.'))
             == (a[0] + "." + Join(a[1..], '.')) + "." + Join(b, '.');
    }
  }

  lemma JoinThree(a: string, b: string, c: string)
    ensures Join([a, b, c], '.') == a + "." + b + "." + c
  {
    assert [b, c][1..] == [c];
    assert Join([b, c], '.') == b + "." + c;
    assert [a, b, c][1..] == [b, c];
    assert a + "." + (b + "." + c) == a + "." + b + "." + c;
  }

  /** The host both makers write: the name, if any, in front of the namespace. */
  function HostOf(owner: string, name: string): string
    requires ValidPortId(owner)
  {
    if name == "" then NamespaceHost(owner) else name + "." + NamespaceHost(owner)
  }

  lemma HostsAreJoins(owner: string, name: string)
    requires ValidPortId(owner)
    ensures var parts := if name == "" then [] else Split(name, '.');
            && Join(parts + [NamespaceHost(owner)], '.') == HostOf(owner, name)
            && Join(parts + [owner[20..][..32], owner[20..][32..], SUFFIX], '.') == HostOf(owner, name)
  {
    var a, b := owner[20..][..32], owner[20..][32..];
    assert a == owner[20..52] && b == owner[52..];
    JoinThree(a, b, SUFFIX);
    if name == "" {
      assert [] + [NamespaceHost(owner)] == [NamespaceHost(owner)] && [] + [a, b, SUFFIX] == [a, b, SUFFIX];
    } else {
      var parts := Split(name, '.');
      JoinOfSplit(name, '.');
      JoinConcat(parts, [NamespaceHost(owner)]);
      JoinConcat(parts, [a, b, SUFFIX]);
    }
  }

  /** Both makers accept the same arguments and write the same URI. */
  lemma MakersAgree(owner: string, name: string, path: string)
    ensures CommunityPortUri(owner, name, path) == MakePortUri(owner, name, path)
    ensures MakePortUri(owner, name, path).Some? ==>
            MakePortUri(owner, name, path).value == SCHEME + HostOf(owner, name) + OrSlash(path)
  {
    NamePartsAgree(name);
    if ValidPortId(owner) { HostsAreJoins(owner, name); }
  }

  // ---------------------------------------------------------------- parsing undoes making

  lemma {:induction false} CharsOfParts<T>(s: seq<T>, sep: T, ok: T -> bool)
    requires ok(sep) && forall i, j :: 0 <= i < |Split(s, sep)| && 0 <= j < |Split(s, sep)[i]| ==>
             ok(Split(s, sep)[i][j])
    ensures forall i :: 0 <= i < |s| ==> ok(s[i])
  {
    if s != [] {
      var rest := Split(s[1..], sep);
      var all := Split(s, sep);
      forall i, j | 0 <= i < |rest| && 0 <= j < |rest[i]|
        ensures ok(rest[i][j])
      {
        if s[0] == sep { assert all[i + 1] == rest[i]; }
        else if i == 0 { assert all[0][j + 1] == rest[0][j]; }
        else { assert all[i] == rest[i]; }
      }
      CharsOfParts(s[1..], sep, ok);
      assert s[0] != sep ==> all[0][0] == s[0];
    }
  }

  lemma AtomChars(part: string)
    requires Atom(part)
    ensures forall i :: 0 <= i < |part| ==> HostChar(part[i])
  {
    forall i | 0 <= i < |part|
      ensures HostChar(part[i])
    {
      assert 0 < i < |part| - 1 ==> AtomInner(part[i]);
    }
  }

  lemma NameChars(name: string)
    requires NameParts(name, Atom).Some?
    ensures forall i :: 0 <= i < |name| ==> HostChar(name[i])
  {
    if name != "" {
      var labels := Split(name, '.');
      forall i, j | 0 <= i < |labels| && 0 <= j < |labels[i]|
        ensures HostChar(labels[i][j])
      {
        AtomChars(labels[i]);
      }
      CharsOfParts(name, '.', HostChar);
    }
  }

  lemma NamespaceSplits(owner: string)
    requires ValidPortId(owner)
    ensures Split(NamespaceHost(owner), '.') == [owner[20..52], owner[52..], SUFFIX]
    ensures |NamespaceHost(owner)| == 70 && forall i :: 0 <= i < 70 ==> HostChar(NamespaceHost(owner)[i])
  {
    var a, b := owner[20..52], owner[52..];
    assert forall i :: 0 <= i < 32 ==> a[i] == owner[20..][i] && b[i] == owner[20..][i + 32];
    assert NamespaceHost(owner) == a + ['.'] + (b + ['.'] + SUFFIX);
    SplitConcat(a, '.', b + ['.'] + SUFFIX);
    SplitConcat(b, '.', SUFFIX);
    SplitOfPlain(a, '.');
    SplitOfPlain(b, '.');
    SplitOfPlain(SUFFIX, '.');
  }

  lemma MadeHostSplits(owner: string, name: string)
    requires ValidPortId(owner) && NameParts(name, Atom).Some?
    ensures Split(HostOf(owner, name), '.')
            == (if name == "" then [] else Split(name, '.')) + [owner[20..52], owner[52..], SUFFIX]
  {
    NamespaceSplits(owner);
    if name != "" {
      assert name + "." + NamespaceHost(owner) == name + ['.'] + NamespaceHost(owner);
      SplitConcat(name, '.', NamespaceHost(owner));
    }
  }

  lemma OwnerFromHalves(owner: string)
    requires ValidPortId(owner)
    ensures HexText(owner[20..52], 32) && HexText(owner[52..], 32)
    ensures OWNER_PREFIX + owner[20..52] + owner[52..] == owner
  {
    var halves := owner[20..];
    assert forall i :: 0 <= i < 32 ==> owner[20..52][i] == halves[i] && owner[52..][i] == halves[i + 32];
  }

  lemma ReadHostOfMade(owner: string, name: string)
    requires ValidPortId(owner) && NameParts(name, Atom).Some?
    ensures ReadHost(HostOf(owner, name)) == Some((owner, name))
  {
    var parts := if name == "" then [] else Split(name, '.');
    MadeHostSplits(owner, name);
    OwnerFromHalves(owner);
    if name != "" { JoinOfSplit(name, '.'); }
    var labels := Split(HostOf(owner, name), '.');
    assert labels[..|labels| - 3] == parts;
  }

  lemma MadeHostChars(owner: string, name: string)
    requires ValidPortId(owner) && NameParts(name, Atom).Some?
    ensures 70 <= |HostOf(owner, name)| <= 241
            && forall i :: 0 <= i < |HostOf(owner, name)| ==> HostChar(HostOf(owner, name)[i])
  {
    NamespaceSplits(owner);
    NameChars(name);
  }

  lemma {:induction false} HostEndOf(host: string, path: string)
    requires (forall i :: 0 <= i < |host| ==> host[i] != '/') && (path == "" || path[0] == '/')
    ensures HostEnd(host + path) == |host|
  {
    if host == "" {
      assert host + path == path;
    } else {
      assert (host + path)[1..] == host[1..] + path;
      HostEndOf(host[1..], path);
    }
  }

  lemma UriPieces(host: string, path: string)
    ensures (SCHEME + host + path)[7..] == host + path && SCHEME <= SCHEME + host + path
    ensures (host + path)[..|host|] == host && (host + path)[|host|..] == path
  {
    assert SCHEME + host + path == SCHEME + (host + path);
  }

  /** Any host and path of the right shape make a URI of the right shape, and are found again. */
  lemma ShapeOfPieces(host: string, path: string)
    requires 0 < |host| <= 241 && |path| <= 512 && PathShape(path) && forall i :: 0 <= i < |host| ==> HostChar(host[i])
    ensures var uri := SCHEME + host + path;
            UriShape(uri) && HostEnd(uri[7..]) == |host| && uri[7..][..|host|] == host && uri[7..][|host|..] == path
  {
    HostEndOf(host, path);
    UriPieces(host, path);
    assert forall i :: 0 <= i < |host| ==> (host + path)[i] == host[i];
  }

  /** A URI put together from its three parts is read back as those parts. */
  lemma ReadMade(owner: string, name: string, path: string)
    requires ValidPortId(owner) && NameParts(name, Atom).Some? && |path| <= 512 && PathShape(path)
    ensures var uri := SCHEME + HostOf(owner, name) + path;
            && UriShape(uri)
            && var t := uri[7..]; var n := HostEnd(t); ReadHost(t[..n]) == Some((owner, name)) && t[n..] == path
  {
    ReadHostOfMade(owner, name);
    MadeHostChars(owner, name);
    ShapeOfPieces(HostOf(owner, name), path);
  }

  lemma MadeChecks(owner: string, name: string, path: string)
    requires ValidPortId(owner) && NameParts(name, Atom).Some? && |path| <= 512 && PathShape(path)
    ensures var made := SCHEME + HostOf(owner, name) + OrSlash(path);
            CheckedAddress(SCHEME + HostOf(owner, name) + path, owner, name, path)
            == Some(Address(made, name, owner, OrSlash(path), NamespaceHost(owner)))
  {
    MakersAgree(owner, name, OrSlash(path));
    DropAtEnd(SCHEME + HostOf(owner, name), OrSlash(path));
    assert path == "" ==> DropSlash(OrSlash(path)) == path;
  }

  lemma ReadMadeParses(owner: string, name: string, path: string)
    requires ValidPortId(owner) && NameParts(name, Atom).Some? && |path| <= 512 && PathShape(path)
    ensures var made := SCHEME + HostOf(owner, name) + OrSlash(path);
            ParsePortUri(SCHEME + HostOf(owner, name) + path)
              == Some(Address(made, name, owner, OrSlash(path), NamespaceHost(owner)))
  {
    ReadMade(owner, name, path);
    MadeChecks(owner, name, path);
  }

  /** Parsing a made URI gives the owner, the name and the path back, an empty path as a slash. */
  lemma ParseOfMake(owner: string, name: string, path: string)
    requires MakePortUri(owner, name, path).Some?
    ensures var uri := MakePortUri(owner, name, path).value;
            ParsePortUri(uri) == Some(Address(uri, name, owner, OrSlash(path), NamespaceHost(owner)))
  {
    MakersAgree(owner, name, path);
    ReadMadeParses(owner, name, OrSlash(path));
  }

  /** Also without the final slash that a maker always writes after a bare host. */
  lemma ParseWithoutSlash(owner: string, name: string, path: string)
    requires MakePortUri(owner, name, path).Some?
    ensures ParsePortUri(DropSlash(MakePortUri(owner, name, path).value)).Some?
  {
    MakersAgree(owner, name, path);
    DropAtEnd(SCHEME + HostOf(owner, name), OrSlash(path));
    DropKeepsShape(OrSlash(path));
    ReadMadeParses(owner, name, DropSlash(OrSlash(path)));
  }

  lemma DropAtEnd(front: string, path: string)
    requires path != ""
    ensures DropSlash(front + path) == front + DropSlash(path)
  {
    var s := front + path;
    assert s[|s| - 1] == path[|path| - 1];
    assert s[..|s| - 1] == front + path[..|path| - 1];
  }

  lemma DropKeepsShape(path: string)
    requires PathShape(path)
    ensures PathShape(DropSlash(path)) && |DropSlash(path)| <= |path|
  {
  }

  /** Different owner, name or path, different URI: a name whose labels look like namespace
      halves cannot stand for another owner. */
  lemma MakeInjective(owner1: string, name1: string, path1: string, owner2: string, name2: string, path2: string)
    requires MakePortUri(owner1, name1, path1).Some?
    ensures MakePortUri(owner1, name1, path1) == MakePortUri(owner2, name2, path2) ==>
            owner1 == owner2 && name1 == name2 && OrSlash(path1) == OrSlash(path2)
  {
    ParseOfMake(owner1, name1, path1);
    if MakePortUri(owner2, name2, path2).Some? { ParseOfMake(owner2, name2, path2); }
  }

  /** The canonical URI in a parsed address parses to that same address, and differs from the
      parsed text by a final slash at most. */
  lemma ReparseIsStable(uri: string)
    requires ParsePortUri(uri).Some?
    ensures var a := ParsePortUri(uri).value;
            ParsePortUri(a.uri) == Some(a) && (a.uri == uri || a.uri == uri + "/")
  {
    var a := ParsePortUri(uri).value;
    ParsedIsMade(uri);
    ParseOfMake(a.owner, a.name, a.path);
  }

  lemma CheckedIsMade(uri: string, owner: string, name: string, raw: string)
    requires CheckedAddress(uri, owner, name, raw).Some?
    ensures var a := CheckedAddress(uri, owner, name, raw).value;
            && MakePortUri(a.owner, a.name, a.path) == Some(a.uri) && OrSlash(a.path) == a.path
            && a.namespaceHost == NamespaceHost(a.owner)
            && (a.uri == uri || DropSlash(a.uri) == uri)
  {
  }

  lemma ParsedIsMade(uri: string)
    requires ParsePortUri(uri).Some?
    ensures var a := ParsePortUri(uri).value;
            && MakePortUri(a.owner, a.name, a.path) == Some(a.uri) && OrSlash(a.path) == a.path
            && a.namespaceHost == NamespaceHost(a.owner)
            && (a.uri == uri || DropSlash(a.uri) == uri) && (a.uri == uri || a.uri == uri + "/")
  {
    var t := uri[7..];
    var n := HostEnd(t);
    var (owner, name) := ReadHost(t[..n]).value;
    CheckedIsMade(uri, owner, name, t[n..]);
    var a := ParsePortUri(uri).value;
    assert a.uri[..|a.uri| - 1] == uri && a.uri[|a.uri| - 1] == '/' ==> a.uri == uri + "/";
  }

  /** Exactly the made URIs parse, with or without a final slash. */
  lemma AcceptedExactlyWhenMade(uri: string)
    ensures ParsePortUri(uri).Some? <==>
            exists owner, name, path ::
              MakePortUri(owner, name, path).Some?
              && (MakePortUri(owner, name, path).value == uri || DropSlash(MakePortUri(owner, name, path).value) == uri)
  {
    if ParsePortUri(uri).Some? {
      ParsedIsMade(uri);
    }
    forall owner, name, path | MakePortUri(owner, name, path).Some?
      ensures ParsePortUri(MakePortUri(owner, name, path).value).Some?
      ensures ParsePortUri(DropSlash(MakePortUri(owner, name, path).value)).Some?
    {
      ParseOfMake(owner, name, path);
      ParseWithoutSlash(owner, name, path);
    }
  }

  lemma ChecksAgree(uri: string, owner: string, name: string, raw: string)
    ensures CheckedAddress(uri, owner, name, raw).Some? <==> CheckedCommunity(uri, owner, name, raw).Some?
    ensures CheckedAddress(uri, owner, name, raw).Some? ==>
              var a, c := CheckedAddress(uri, owner, name, raw).value, CheckedCommunity(uri, owner, name, raw).value;
              c.uri == uri && a.owner == c.owner && a.name == c.name && a.path == OrSlash(c.path)
  {
    MakersAgree(owner, name, raw);
    MakersAgree(owner, name, OrSlash(raw));
  }

  /** The two parsers accept the same URIs and read the same owner and name; the paths differ only
      where the community parser keeps an empty one. */
  lemma ParsersAgree(uri: string)
    ensures ParsePortUri(uri).Some? <==> ParseCommunityPortUri(uri).Some?
    ensures ParsePortUri(uri).Some? ==>
              var a, c := ParsePortUri(uri).value, ParseCommunityPortUri(uri).value;
              c.uri == uri && a.owner == c.owner && a.name == c.name && a.path == OrSlash(c.path)
  {
    if UriShape(uri) {
      var t := uri[7..];
      var n := HostEnd(t);
      if ReadHost(t[..n]).Some? {
        var (owner, name) := ReadHost(t[..n]).value;
        ChecksAgree(uri, owner, name, t[n..]);
      }
    }
  }

  // ---------------------------------------------------------------- signed names and resolution

  datatype Entry = Entry(name: string, target: string)

  predicate EntryOk(e: Entry) { NameParts(e.name, Atom).Some? && ValidPortId(e.target) }

  predicate CommunityEntryOk(e: Entry) { NameParts(e.name, CommunityAtom).Some? && ValidPortId(e.target) }

  /** One to 128 acceptable entries, no name twice. */
  predicate EntriesOk(entries: seq<Entry>, entryOk: Entry -> bool) {
    && 1 <= |entries| <= 128
    && (forall i :: 0 <= i < |entries| ==> entryOk(entries[i]))
    && (forall i, j :: 0 <= i < j < |entries| ==> entries[i].name != entries[j].name)
  }

  /** The loop of verifyBody (with EntryOk) and of validateBindings (with CommunityEntryOk). */
  method CheckEntries(entries: seq<Entry>, entryOk: Entry -> bool) returns (ok: bool)
    ensures ok <==> EntriesOk(entries, entryOk)
  {
    if |entries| == 0 || |entries| > 128 { return false; }
    var seen: set<string> := {};
    for i := 0 to |entries|
      invariant forall k :: 0 <= k < i ==> entries[k].name in seen
      invariant forall name :: name in seen ==> exists k :: 0 <= k < i && entries[k].name == name
      invariant forall k :: 0 <= k < i ==> entryOk(entries[k])
      invariant forall j, k :: 0 <= j < k < i ==> entries[j].name != entries[k].name
    {
      if !entryOk(entries[i]) || entries[i].name in seen { return false; }
      seen := seen + {entries[i].name};
    }
    return true;
  }

  lemma EntryChecksAgree(entries: seq<Entry>)
    ensures EntriesOk(entries, EntryOk) <==> EntriesOk(entries, CommunityEntryOk)
  {
    forall e: Entry
      ensures EntryOk(e) <==> CommunityEntryOk(e)
    {
      NamePartsAgree(e.name);
    }
  }

  /** Array.prototype.find by name. */
  function Find(entries: seq<Entry>, name: string): Option<string> {
    if entries == [] then None
    else if entries[0].name == name then Some(entries[0].target)
    else Find(entries[1..], name)
  }

  /** resolvePortName on a verified body of `owner`. */
  function Resolve(uri: string, owner: string, entries: seq<Entry>): Option<string> {
    match ParsePortUri(uri)
    case None => None
    case Some(a) => if a.owner != owner then None else Find(entries, a.name)
  }

  /** resolveCommunityPort on a verified body of `owner`. */
  function ResolveCommunity(uri: string, owner: string, entries: seq<Entry>): Option<string> {
    match ParseCommunityPortUri(uri)
    case None => None
    case Some(a) => if a.owner != owner then None else Find(entries, a.name)
  }

  lemma {:induction false} FindIsExact(entries: seq<Entry>, name: string, target: string)
    requires forall i, j :: 0 <= i < j < |entries| ==> entries[i].name != entries[j].name
    ensures Find(entries, name) == Some(target) <==> Entry(name, target) in entries
  {
    if entries != [] {
      FindIsExact(entries[1..], name, target);
      assert entries == [entries[0]] + entries[1..];
    }
  }

  /** A made URI resolves to a target exactly when its owner signed that pair, under both
      implementations; a URI of another owner never does. */
  lemma ResolvesExactlyWhatIsSigned(owner: string, name: string, path: string, signer: string, entries: seq<Entry>,
      target: string)
    requires MakePortUri(owner, name, path).Some? && EntriesOk(entries, EntryOk)
    ensures var uri := MakePortUri(owner, name, path).value;
            && (Resolve(uri, signer, entries) == Some(target) <==> signer == owner && Entry(name, target) in entries)
            && ResolveCommunity(uri, signer, entries) == Resolve(uri, signer, entries)
  {
    ParseOfMake(owner, name, path);
    ParsersAgree(MakePortUri(owner, name, path).value);
    FindIsExact(entries, name, target);
  }

  // ---------------------------------------------------------------- the directory of signed names

  /** What SignedPortNameDirectory verifies: lifetimes up to an hour, the entries, and the size of the
      canonical body, which is a parameter here. */
  function NameRules(fits: seq<Entry> -> bool): SignedDirectories.Rules<seq<Entry>> {
    SignedDirectories.Rules(3_600_000, entries => EntriesOk(entries, EntryOk) && fits(entries))
  }

  /** SignedPortNameDirectory.resolve; port reads an owner's text as the identity it names. */
  function ResolveIn(d: SignedDirectories.Directory<seq<Entry>>, fits: seq<Entry> -> bool, port: string -> PortId,
      uri: string, now: int): Option<string> {
    match ParsePortUri(uri)
    case None => None
    case Some(a) =>
      match SignedDirectories.Lookup(d, NameRules(fits), port(a.owner), now)
      case None => None
      case Some(record) => Find(record.body.content, a.name)
  }

  /** In every run of a name directory a made URI resolves exactly to the targets that its owner's
      retained, unrevoked and unexpired record signs for the name. */
  lemma DirectoryResolvesSignedNames(
    c: SignedDirectories.Config<seq<Entry>>, ops: seq<SignedDirectories.Operation<seq<Entry>>>,
    fits: seq<Entry> -> bool,
    port: string -> PortId, owner: string, name: string, path: string, now: int, target: string)
    requires c.rules == NameRules(fits) && MakePortUri(owner, name, path).Some?
    ensures var d := SignedDirectories.Run(c, SignedDirectories.Directory(map[], {}), ops);
            ResolveIn(d, fits, port, MakePortUri(owner, name, path).value, now) == Some(target) <==>
              && port(owner) in d.records && port(owner) !in d.revoked
              && d.records[port(owner)].body.issuedAt <= now < d.records[port(owner)].body.expiresAt
              && Entry(name, target) in d.records[port(owner)].body.content
  {
    var d := SignedDirectories.Run(c, SignedDirectories.Directory(map[], {}), ops);
    SignedDirectories.FoundExactlyWhileCurrent(c, ops, port(owner), now);
    SignedDirectories.RetainedRecordsAreWellSigned(c, ops);
    ParseOfMake(owner, name, path);
    var found := SignedDirectories.Lookup(d, c.rules, port(owner), now);
    if found.Some? { FindIsExact(found.value.body.content, name, target); }
  }
}
