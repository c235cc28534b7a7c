/** The written grammar of port addresses: which owners, names and paths have a URI and which one,
    and what a retained name record may bind. */
module PortGrammar {
  import opened Identity
  import opened Letters
  import opened Text
  import opened PortUri
  import SignedDirectories

  // ---------------------------------------------------------------- owners and labels

  ghost predicate OwnerOf(owner: string, hash: string) { Hex(hash, 64) && owner == "strata:port:ed25519:" + hash }

  lemma OwnersFit(owner: string)
    ensures ValidPortId(owner) <==> |owner| >= 20 && OwnerOf(owner, owner[20..])
  {
    if |owner| >= 20 {
      HexDigits(owner[20..], 64);
      assert owner == owner[..20] + owner[20..];
      assert (OWNER_PREFIX + owner[20..])[..20] == OWNER_PREFIX;
    }
  }

  lemma OwnerHasOneHash(owner: string, hash: string)
    requires OwnerOf(owner, hash)
    ensures |owner| >= 20 && owner[20..] == hash
  {
  }

  /** One to 32 small letters, digits and hyphens, a letter first, no hyphen last. */
  ghost predicate LabelGrammar(s: string) {
    && 1 <= |s| <= 32 && s[0] in SMALL && (s[|s| - 1] in SMALL || s[|s| - 1] in DIGITS)
    && forall c :: c in s ==> c in SMALL || c in DIGITS || c in "-"
  }

  lemma InnerRange(c: char)
    ensures c in SMALL || c in DIGITS || c in "-" <==> AtomInner(c)
    ensures c in SMALL || c in DIGITS <==> AtomChar(c)
    ensures c in SMALL <==> InRange(c, 'a', 'z')
  {
    SmallRange(c);
    DigitRange(c);
    assert "-"[0] == '-';
  }

  lemma InnerText(s: string)
    ensures (forall c :: c in s ==> c in SMALL || c in DIGITS || c in "-") <==>
              forall i :: 0 <= i < |s| ==> AtomInner(s[i])
  {
    forall c: char
      ensures c in SMALL || c in DIGITS || c in "-" <==> AtomInner(c)
    {
      InnerRange(c);
    }
    assert forall i :: 0 <= i < |s| ==> s[i] in s;
  }

  lemma AtomByLetters(s: string)
    ensures Atom(s) <==>
              && 1 <= |s| <= 32 && InRange(s[0], 'a', 'z') && AtomChar(s[|s| - 1])
              && forall i :: 0 <= i < |s| ==> AtomInner(s[i])
  {
  }

  lemma LabelsFit(s: string)
    ensures Atom(s) <==> LabelGrammar(s)
  {
    AtomByLetters(s);
    InnerText(s);
    if s != "" {
      InnerRange(s[0]);
      InnerRange(s[|s| - 1]);
    }
  }

  ghost predicate Labelled(name: string, labels: seq<string>) {
    && 1 <= |labels| <= 5 && (forall i :: 0 <= i < |labels| ==> LabelGrammar(labels[i]))
    && name == Join(labels, '.')
  }

  /** No labels at all, or up to five joined with dots, in 170 characters. */
  ghost predicate NameGrammar(name: string) { |name| <= 170 && (name == "" || exists labels :: Labelled(name, labels)) }

  lemma LabelledSplits(name: string, labels: seq<string>)
    requires Labelled(name, labels)
    ensures Split(name, '.') == labels
  {
    forall i | 0 <= i < |labels|
      ensures '.' !in labels[i]
    {
      if '.' in labels[i] { InnerRange('.'); }
    }
    SplitOfJoin(labels, '.');
  }

  lemma NamesFit(name: string)
    ensures NameParts(name, Atom).Some? <==> NameGrammar(name)
  {
    if name != "" {
      var labels := Split(name, '.');
      JoinOfSplit(name, '.');
      forall i | 0 <= i < |labels|
        ensures Atom(labels[i]) <==> LabelGrammar(labels[i])
      {
        LabelsFit(labels[i]);
      }
      if NameParts(name, Atom).Some? { assert Labelled(name, labels); }
      if exists other :: Labelled(name, other) {
        var other :| Labelled(name, other);
        LabelledSplits(name, other);
      }
    }
  }

  // ---------------------------------------------------------------- paths

  ghost predicate Segment(s: string) {
    s != "" && forall c :: c in s ==> c in SMALL || c in CAPITAL || c in DIGITS || c in "_-"
  }

  /** A slash before every segment, and perhaps one at the end. */
  ghost function PathOf(segments: seq<string>, slash: bool): string {
    if segments == [] then (if slash then "/" else "") else "/" + segments[0] + PathOf(segments[1..], slash)
  }

  ghost predicate PathGrammar(path: string) {
    exists segments, slash :: (forall i :: 0 <= i < |segments| ==> Segment(segments[i]))
      && path == PathOf(segments, slash)
  }

  lemma SegmentRange(c: char)
    ensures c in SMALL || c in CAPITAL || c in DIGITS || c in "_-" <==> SegmentChar(c)
  {
    SmallRange(c);
    CapitalRange(c);
    DigitRange(c);
    assert "_-"[0] == '_' && "_-"[1] == '-';
  }

  lemma SegmentFits(s: string)
    ensures Segment(s) <==> s != "" && forall i :: 0 <= i < |s| ==> SegmentChar(s[i])
  {
    forall c: char
      ensures c in SMALL || c in CAPITAL || c in DIGITS || c in "_-" <==> SegmentChar(c)
    {
      SegmentRange(c);
    }
    assert forall i :: 0 <= i < |s| ==> s[i] in s;
  }

  lemma ShapeAfterSegment(segment: string, rest: string)
    requires Segment(segment) && PathShape(rest)
    ensures PathShape("/" + segment + rest)
  {
    SegmentFits(segment);
    var path := "/" + segment + rest;
    forall i | 0 <= i < |path| - 1
      ensures !(path[i] == '/' && path[i + 1] == '/')
    {
      assert i > |segment| ==> path[i] == rest[i - |segment| - 1] && path[i + 1] == rest[i - |segment|];
      assert 0 < i <= |segment| ==> path[i] == segment[i - 1];
      assert i == 0 ==> path[1] == segment[0];
    }
  }

  lemma {:induction false} PathOfHasShape(segments: seq<string>, slash: bool)
    requires forall i :: 0 <= i < |segments| ==> Segment(segments[i])
    ensures PathShape(PathOf(segments, slash))
  {
    if segments != [] {
      PathOfHasShape(segments[1..], slash);
      ShapeAfterSegment(segments[0], PathOf(segments[1..], slash));
    }
  }

  lemma TailShape(path: string, k: nat)
    requires PathShape(path) && k <= |path| && (k < |path| ==> path[k] == '/')
    ensures PathShape(path[k..])
  {
    var rest := path[k..];
    assert forall i :: 0 <= i < |rest| ==> rest[i] == path[k + i];
  }

  lemma HeadSegment(path: string, k: nat)
    requires PathShape(path) && 1 < k <= |path| && forall i :: 1 <= i < k ==> path[i] != '/'
    ensures Segment(path[1..k])
  {
    var segment := path[1..k];
    forall i | 0 <= i < |segment|
      ensures SegmentChar(segment[i])
    {
      assert segment[i] == path[i + 1];
    }
    SegmentFits(segment);
  }

  lemma Pieces(path: string, k: nat)
    requires 1 <= k <= |path| && path[0] == '/'
    ensures path == "/" + path[1..k] + path[k..]
  {
    assert "/" + path[1..k] == path[..k];
  }

  lemma FirstSegment(path: string) returns (k: nat)
    requires PathShape(path) && |path| > 1
    ensures 1 < k <= |path| && path == "/" + path[1..k] + path[k..] && Segment(path[1..k]) && PathShape(path[k..])
  {
    var t := path[1..];
    k := 1 + HostEnd(t);
    assert forall i :: 0 <= i < |t| ==> t[i] == path[i + 1];
    assert path[1] != '/';
    Pieces(path, k);
    HeadSegment(path, k);
    TailShape(path, k);
  }

  lemma {:induction false} ShapeHasSegments(path: string) returns (segments: seq<string>, slash: bool)
    requires PathShape(path)
    ensures (forall i :: 0 <= i < |segments| ==> Segment(segments[i])) && path == PathOf(segments, slash)
    decreases |path|
  {
    if |path| <= 1 {
      segments, slash := [], path != "";
    } else {
      var k := FirstSegment(path);
      var others, last := ShapeHasSegments(path[k..]);
      segments, slash := [path[1..k]] + others, last;
      assert segments[1..] == others;
    }
  }

  lemma PathsFit(path: string)
    ensures PathShape(path) <==> PathGrammar(path)
  {
    if PathShape(path) {
      var segments, slash := ShapeHasSegments(path);
    }
    if PathGrammar(path) {
      var segments, slash :| (forall i :: 0 <= i < |segments| ==> Segment(segments[i]))
        && path == PathOf(segments, slash);
      PathOfHasShape(segments, slash);
    }
  }

  // ---------------------------------------------------------------- addresses and entries

  /** Exactly the written owners, names and paths have a URI, and this is it: the labels, the two
      halves of the owner's hash, the overlay suffix and the path. */
  lemma MadeExactlyWhenWritten(owner: string, name: string, path: string)
    ensures MakePortUri(owner, name, path).Some? <==>
              (exists hash :: OwnerOf(owner, hash)) && NameGrammar(name) && PathGrammar(path) && |path| <= 512
    ensures forall hash :: OwnerOf(owner, hash) && MakePortUri(owner, name, path).Some? ==>
              MakePortUri(owner, name, path).value
              == "port://" + (if name == "" then "" else name + ".") + hash[..32] + "." + hash[32..] + ".sdpn"
                 + (if path == "" then "/" else path)
  {
    OwnersFit(owner);
    forall hash | OwnerOf(owner, hash)
      ensures |owner| >= 20 && owner[20..] == hash
    {
      OwnerHasOneHash(owner, hash);
    }
    NamesFit(name);
    PathsFit(path);
    MakersAgree(owner, name, path);
    if MakePortUri(owner, name, path).Some? { UriText(owner, name, path); }
  }

  lemma UriText(owner: string, name: string, path: string)
    requires ValidPortId(owner)
    ensures SCHEME + HostOf(owner, name) + OrSlash(path)
            == "port://" + (if name == "" then "" else name + ".") + owner[20..][..32] + "." + owner[20..][32..]
               + ".sdpn" + (if path == "" then "/" else path)
  {
    var a, b := owner[20..52], owner[52..];
    assert owner[20..][..32] == a && owner[20..][32..] == b;
    assert a + "." + b + "." + SUFFIX == a + "." + b + ".sdpn";
    assert SCHEME + "" == SCHEME;
    assert name + "." + (a + "." + b + ".sdpn") == name + "." + a + "." + b + ".sdpn";
    assert SCHEME + (name + "." + a + "." + b + ".sdpn") == SCHEME + (name + ".") + a + "." + b + ".sdpn";
    assert SCHEME + (a + "." + b + ".sdpn") == SCHEME + "" + a + "." + b + ".sdpn";
  }

  ghost predicate Bindings(entries: seq<Entry>) {
    && 1 <= |entries| <= 128
    && (forall e :: e in entries ==> NameGrammar(e.name) && exists hash :: OwnerOf(e.target, hash))
    && (forall i, j :: 0 <= i < j < |entries| ==> entries[i].name != entries[j].name)
  }

  lemma EntriesFit(entries: seq<Entry>)
    ensures EntriesOk(entries, EntryOk) <==> Bindings(entries)
  {
    forall e: Entry
      ensures EntryOk(e) <==> NameGrammar(e.name) && exists hash :: OwnerOf(e.target, hash)
    {
      NamesFit(e.name);
      OwnersFit(e.target);
      forall hash | OwnerOf(e.target, hash)
        ensures ValidPortId(e.target)
      {
        OwnerHasOneHash(e.target, hash);
      }
    }
    assert forall i :: 0 <= i < |entries| ==> entries[i] in entries;
  }

  /** Whatever a name directory retains after a run was signed for at most an hour and binds different
      written names to written owners. */
  lemma RetainedNamesAreBindings(c: SignedDirectories.Config<seq<Entry>>,
      ops: seq<SignedDirectories.Operation<seq<Entry>>>, fits: seq<Entry> -> bool, id: PortId)
    requires c.rules == NameRules(fits)
    ensures var d := SignedDirectories.Run(c, SignedDirectories.Directory(map[], {}), ops);
            id in d.records ==>
              && Bindings(d.records[id].body.content) && fits(d.records[id].body.content)
              && d.records[id].body.expiresAt <= d.records[id].body.issuedAt + 60 * 60 * 1000
  {
    var d := SignedDirectories.Run(c, SignedDirectories.Directory(map[], {}), ops);
    SignedDirectories.RetainedRecordsAreWellSigned(c, ops);
    if id in d.records { EntriesFit(d.records[id].body.content); }
  }
}
