/** Container image references and how they are pinned to a digest
    (packages/core/src/deployment-operations.ts, `immutableImage`). The name grammar is that of the
    OCI Distribution Specification, section "Pulling manifests". */
module ImageReferences {
  import opened Text

  /** Index of the last occurrence, or -1. */
  function LastIndex(s: string, c: char): (k: int)
    ensures -1 <= k < |s|
    ensures k >= 0 ==> s[k] == c
    ensures forall i :: k < i < |s| ==> s[i] != c
  {
    if s == [] then -1
    else if s[|s| - 1] == c then |s| - 1
    else LastIndex(s[..|s| - 1], c)
  }

  // ---------------------------------------------------------------- grammar

  function Dashes(s: string): (k: nat)
    ensures k <= |s| && forall i :: 0 <= i < k ==> s[i] == '-'
  {
    if s != [] && s[0] == '-' then 1 + Dashes(s[1..]) else 0
  }

  /** Length of the separator at the front of `s`: a dot, one or two underscores, or dashes. */
  function Separator(s: string): (k: nat)
    ensures k <= |s| && forall i :: 0 <= i < k ==> s[i] in ['.', '_', '-']
  {
    if s == [] then 0
    else if s[0] == '.' then 1
    else if s[0] == '_' then (if |s| > 1 && s[1] == '_' then 2 else 1)
    else Dashes(s)
  }

  predicate SegmentTail(s: string)
    decreases |s|
  {
    if s == [] then true
    else if IsLowerAlnum(s[0]) then SegmentTail(s[1..])
    else
      var k := Separator(s);
      0 < k < |s| && IsLowerAlnum(s[k]) && SegmentTail(s[k..])
  }

  /** One path component: alphanumeric runs joined by separators. */
  predicate Segment(s: string) {
    s != [] && IsLowerAlnum(s[0]) && SegmentTail(s)
  }

  /** A registry host: alphanumeric runs joined by single dots or hyphens. */
  predicate RegistryHost(s: string) {
    && s != [] && IsLowerAlnum(s[0]) && IsLowerAlnum(s[|s| - 1])
    && (forall i :: 0 <= i < |s| ==> IsLowerAlnum(s[i]) || s[i] in ['.', '-'])
    && forall i :: 0 <= i < |s| - 1 ==> IsLowerAlnum(s[i]) || IsLowerAlnum(s[i + 1])
  }

  predicate Port(s: string) {
    1 <= |s| <= 5 && s[0] != '0' && (forall i :: 0 <= i < |s| ==> IsDigit(s[i])) && DecimalValue(s) <= 65535
  }

  predicate Registry(s: string) {
    var parts := Split(s, ':');
    RegistryHost(parts[0]) && |parts| <= 2 && (|parts| == 2 ==> Port(parts[1]))
  }

  predicate HasDotOrColon(s: string) {
    '.' in s || ':' in s
  }

  /** A repository the pinning accepts: components, the first of them read as a registry when it
      has a dot or a colon and more follow. */
  predicate Repository(s: string) {
    var segments := Split(s, '/');
    if |segments| > 1 && HasDotOrColon(segments[0])
    then Registry(segments[0]) && forall i :: 1 <= i < |segments| ==> Segment(segments[i])
    else forall i :: 0 <= i < |segments| ==> Segment(segments[i])
  }

  predicate TagChar(c: char) {
    'a' <= c <= 'z' || 'A' <= c <= 'Z' || IsDigit(c) || c in ['_', '.', '-']
  }

  predicate Tag(s: string) {
    1 <= |s| <= 128 && (forall i :: 0 <= i < |s| ==> TagChar(s[i])) && s[0] !in ['.', '-']
  }

  predicate IsHex(c: char) {
    IsDigit(c) || 'a' <= c <= 'f'
  }

  predicate Digest(s: string) {
    && |s| == 71 && s[..7] == "sha256:" && (forall i :: 7 <= i < |s| ==> IsHex(s[i]))
    && exists i :: 7 <= i < |s| && s[i] != '0'
  }

  // ---------------------------------------------------------------- pinning

  datatype Pinned = Pinned(imageUrl: string, imageDigest: string)

  function TextOf(o: Option<string>): string {
    if o.Some? then Trim(o.value) else []
  }

  function TagOffset(named: string): int {
    if LastIndex(named, ':') > LastIndex(named, '/') then LastIndex(named, ':') else -1
  }

  function Pin(imageUrl: Option<string>, imageDigest: Option<string>): (r: Option<Pinned>)
    ensures r.Some? ==> Digest(r.value.imageDigest)
  {
    var parts := Split(TextOf(imageUrl), '@');
    if |parts| > 2 then None
    else PinNamed(parts[0], if |parts| == 2 then Some(Lower(parts[1])) else None, Lower(TextOf(imageDigest)))
  }

  /** The name with its tag split off, the embedded digest if there is one, and the separate one. */
  function PinNamed(named: string, embedded: Option<string>, separate: string): (r: Option<Pinned>)
    ensures r.Some? ==> Digest(r.value.imageDigest)
  {
    var k := TagOffset(named);
    var repository := if k < 0 then named else named[..k];
    var tag := if k < 0 then None else Some(named[k + 1..]);
    var digest := if embedded.Some? && embedded.value != [] then embedded.value else separate;
    if !Repository(repository) || (tag.Some? && !Tag(tag.value))
       || !Digest(digest) || (embedded.Some? && !Digest(embedded.value)) || (separate != [] && !Digest(separate))
       || (embedded.Some? && embedded.value != [] && separate != [] && embedded.value != separate)
    then None
    else Some(Pinned(repository + "@" + digest, digest))
  }

  // ---------------------------------------------------------------- character facts

  predicate RepositoryChar(c: char) {
    IsLowerAlnum(c) || c in ['.', '_', '-', ':', '/']
  }

  lemma {:induction false} SegmentTailChars(s: string)
    requires SegmentTail(s)
    ensures forall i :: 0 <= i < |s| ==> IsLowerAlnum(s[i]) || s[i] in ['.', '_', '-']
    decreases |s|
  {
    if s != [] {
      if IsLowerAlnum(s[0]) {
        SegmentTailChars(s[1..]);
        assert forall i :: 1 <= i < |s| ==> s[i] == s[1..][i - 1];
      } else {
        var k := Separator(s);
        SegmentTailChars(s[k..]);
        assert forall i :: k <= i < |s| ==> s[i] == s[k..][i - k];
      }
    }
  }

  lemma RegistryChars(s: string)
    requires Registry(s)
    ensures s != [] && forall i :: 0 <= i < |s| ==> IsLowerAlnum(s[i]) || s[i] in ['.', '-', ':']
  {
    SplitJoin(s, ':');
    var parts := Split(s, ':');
    if |parts| == 2 {
      assert Join(parts[1..], [':']) == parts[1];
      assert s == parts[0] + [':'] + parts[1];
    }
  }

  lemma {:induction false} JoinChars(parts: seq<string>)
    requires forall i, j :: 0 <= i < |parts| && 0 <= j < |parts[i]| ==> RepositoryChar(parts[i][j])
    ensures forall j :: 0 <= j < |Join(parts, ['/'])| ==> RepositoryChar(Join(parts, ['/'])[j])
  {
    if |parts| > 1 {
      JoinChars(parts[1..]);
    }
  }

  lemma RepositoryChars(s: string)
    requires Repository(s)
    ensures s != [] && forall i :: 0 <= i < |s| ==> RepositoryChar(s[i])
  {
    SplitJoin(s, '/');
    var segments := Split(s, '/');
    forall i, j | 0 <= i < |segments| && 0 <= j < |segments[i]| ensures RepositoryChar(segments[i][j]) {
      if Segment(segments[i]) {
        SegmentTailChars(segments[i]);
      } else {
        RegistryChars(segments[i]);
      }
    }
    JoinChars(segments);
    assert segments[0] != [] by {
      if !Segment(segments[0]) { RegistryChars(segments[0]); }
    }
  }

  /** No colon of a repository comes after its last slash. */
  lemma RepositoryHasNoTag(s: string)
    requires Repository(s)
    ensures TagOffset(s) == -1
  {
    SplitJoin(s, '/');
    var segments := Split(s, '/');
    var k := LastIndex(s, ':');
    if |segments| == 1 {
      assert Segment(segments[0]);
      SegmentTailChars(s);
    } else {
      var rest := Join(segments[1..], ['/']);
      assert s == segments[0] + ['/'] + rest;
      RestHasNoColon(segments[1..]);
      assert s[|segments[0]|] == '/';
      assert forall i :: |segments[0]| < i < |s| ==> s[i] == rest[i - |segments[0]| - 1];
    }
  }

  lemma {:induction false} RestHasNoColon(segments: seq<string>)
    requires forall i :: 0 <= i < |segments| ==> Segment(segments[i])
    ensures ':' !in Join(segments, ['/'])
  {
    if segments != [] {
      SegmentTailChars(segments[0]);
      if |segments| > 1 {
        RestHasNoColon(segments[1..]);
      }
    }
  }

  /** A tag appended to a repository is found again. */
  lemma TagFound(repository: string, tag: string)
    requires Repository(repository) && Tag(tag)
    ensures TagOffset(repository + ":" + tag) == |repository|
  {
    var named := repository + ":" + tag;
    assert named[|repository|] == ':';
    assert forall i :: |repository| < i < |named| ==> named[i] == tag[i - |repository| - 1] && TagChar(named[i]);
  }

  // ---------------------------------------------------------------- the grammar, told by characters

  predicate Separates(c: char) {
    c == '.' || c == '_' || c == '-'
  }

  /** Two separators in a row are the same and no dots, and underscores do not come in threes. */
  predicate SpacedAt(s: string, i: nat)
    requires i + 1 < |s|
  {
    Separates(s[i]) && Separates(s[i + 1]) ==>
      && s[i] == s[i + 1] != '.'
      && (s[i] == '_' && i + 2 < |s| ==> s[i + 2] != '_')
  }

  /** Letters, digits and separators, spaced so, and no separator at the end. */
  predicate Joined(s: string) {
    && (forall i :: 0 <= i < |s| ==> 'a' <= s[i] <= 'z' || '0' <= s[i] <= '9' || Separates(s[i]))
    && (s != [] ==> !Separates(s[|s| - 1]))
    && forall i :: 0 <= i < |s| - 1 ==> SpacedAt(s, i)
  }

  /** A path component is a text of that kind that starts with a letter or digit. */
  lemma SegmentIff(s: string)
    ensures Segment(s) <==> s != [] && !Separates(s[0]) && Joined(s)
  {
    SegmentTailIff(s);
  }

  lemma {:induction false} SegmentTailIff(s: string)
    ensures SegmentTail(s) <==> Joined(s)
    decreases |s|
  {
    if s != [] {
      if IsLowerAlnum(s[0]) {
        JoinedDrop(s, 1);
        SegmentTailIff(s[1..]);
      } else {
        var k := Separator(s);
        SeparatorIs(s);
        if 0 < k < |s| && IsLowerAlnum(s[k]) {
          JoinedDrop(s, k);
          SegmentTailIff(s[k..]);
        }
      }
    }
  }

  lemma {:induction false} DashesMaximal(s: string)
    ensures Dashes(s) < |s| ==> s[Dashes(s)] != '-'
  {
    if s != [] && s[0] == '-' {
      DashesMaximal(s[1..]);
    }
  }

  /** In every joined text the separator in front ends before a letter or digit. */
  lemma SeparatorIs(s: string)
    requires s != [] && !IsLowerAlnum(s[0])
    ensures Joined(s) ==> 0 < Separator(s) < |s| && IsLowerAlnum(s[Separator(s)])
    ensures forall i :: 0 <= i < Separator(s) ==> s[i] == s[0] && Separates(s[0])
    ensures Separator(s) <= 1 || s[0] == '-' || (s[0] == '_' && Separator(s) == 2)
  {
    DashesMaximal(s);
    var k := Separator(s);
    if Joined(s) {
      assert 0 < k;
      assert forall i :: 0 <= i < k ==> s[i] == s[0];
      assert k < |s|;
      assert SpacedAt(s, k - 1);
      assert k == 2 && s[0] == '_' ==> SpacedAt(s, 0);
    }
  }

  /** A letter or digit in front, or a run of separators with one behind it, can be taken off. */
  lemma JoinedDrop(s: string, k: nat)
    requires 0 < k <= |s| && forall i :: 0 <= i < k ==> s[i] == s[0]
    requires k == 1 || s[0] == '-' || (s[0] == '_' && k == 2)
    requires if k == 1 && IsLowerAlnum(s[0]) then true else Separates(s[0]) && k < |s| && IsLowerAlnum(s[k])
    ensures Joined(s) <==> Joined(s[k..])
  {
    var t := s[k..];
    assert forall i :: k <= i < |s| ==> s[i] == t[i - k];
    forall i | 0 <= i < |t| - 1 ensures SpacedAt(t, i) == SpacedAt(s, i + k) {
    }
    forall i | 0 <= i < k && i + 1 < |s| ensures SpacedAt(s, i) {
    }
    if Joined(t) {
      JoinedAfter(s, k);
    }
  }

  lemma JoinedAfter(s: string, k: nat)
    requires 0 < k <= |s| && Joined(s[k..]) && (k == |s| ==> !Separates(s[|s| - 1]))
    requires forall i :: 0 <= i < k ==> IsLowerAlnum(s[i]) || Separates(s[i])
    requires forall i :: 0 <= i < |s[k..]| - 1 ==> SpacedAt(s[k..], i) == SpacedAt(s, i + k)
    requires forall i :: 0 <= i < k && i + 1 < |s| ==> SpacedAt(s, i)
    ensures Joined(s)
  {
    var t := s[k..];
    assert forall i :: k <= i < |s| ==> s[i] == t[i - k];
    forall i | 0 <= i < |s| - 1 ensures SpacedAt(s, i) {
      if i >= k {
        assert SpacedAt(t, i - k);
      }
    }
  }

  /** A registry host is a path component without underscores and doubled hyphens. */
  lemma RegistryHostIff(s: string)
    ensures RegistryHost(s)
       <==> Segment(s) && '_' !in s && forall i :: 0 <= i < |s| - 1 ==> s[i] != '-' || s[i + 1] != '-'
  {
    SegmentIff(s);
    if RegistryHost(s) {
      assert forall i :: 0 <= i < |s| - 1 ==> SpacedAt(s, i);
    }
    if Segment(s) && '_' !in s && forall i :: 0 <= i < |s| - 1 ==> s[i] != '-' || s[i + 1] != '-' {
      forall i | 0 <= i < |s| - 1 ensures IsLowerAlnum(s[i]) || IsLowerAlnum(s[i + 1]) {
        assert SpacedAt(s, i);
      }
    }
  }

  /** A port is the decimal of a number from 1 to 65535. */
  lemma PortIff(s: string)
    ensures Port(s) <==> exists n: nat :: 1 <= n <= 65535 && s == Decimal(n)
  {
    if Port(s) {
      DecimalWritten(s);
    }
    if exists n: nat :: 1 <= n <= 65535 && s == Decimal(n) {
      var n: nat :| 1 <= n <= 65535 && s == Decimal(n);
      DecimalRead(n);
      FiveDigits(n);
    }
  }

  lemma FiveDigits(n: nat)
    requires n < 100_000
    ensures |Decimal(n)| <= 5
  {
    assert |Decimal(n / 10000)| == 1;
    assert |Decimal(n / 1000)| <= 2;
    assert |Decimal(n / 100)| <= 3;
    assert |Decimal(n / 10)| <= 4;
  }

  // ---------------------------------------------------------------- main results

  function Named(repository: string, tag: Option<string>): string {
    if tag.Some? then repository + ":" + tag.value else repository
  }

  lemma NamedParts(repository: string, tag: Option<string>)
    requires Repository(repository) && (tag.Some? ==> Tag(tag.value))
    ensures var named := Named(repository, tag);
      var k := TagOffset(named);
      && (if k < 0 then named else named[..k]) == repository
      && (if k < 0 then None else Some(named[k + 1..])) == tag
  {
    if tag.Some? {
      TagFound(repository, tag.value);
      var named := Named(repository, tag);
      assert named[..|repository|] == repository && named[|repository| + 1..] == tag.value;
    } else {
      RepositoryHasNoTag(repository);
    }
  }

  predicate PlainChar(c: char) {
    c != '@' && !IsSpace(c)
  }

  predicate PlainText(s: string) {
    forall i :: 0 <= i < |s| ==> PlainChar(s[i])
  }

  lemma NamedPlain(repository: string, tag: Option<string>)
    requires Repository(repository) && (tag.Some? ==> Tag(tag.value))
    ensures PlainText(Named(repository, tag))
  {
    RepositoryChars(repository);
    assert PlainText(repository);
    if tag.Some? {
      TagPlain(tag.value);
      PlainConcat(repository, tag.value);
    }
  }

  lemma TagPlain(tag: string)
    requires Tag(tag)
    ensures PlainText(tag)
  {
  }

  lemma PlainConcat(a: string, b: string)
    requires PlainText(a) && PlainText(b)
    ensures PlainText(a + ":" + b)
  {
  }

  lemma DigestText(spelled: string)
    requires Digest(Lower(spelled))
    ensures spelled != [] && PlainText(spelled)
  {
    var d := Lower(spelled);
    forall i | 0 <= i < |spelled| ensures PlainChar(spelled[i]) {
      assert d[i] == LowerChar(spelled[i]);
      assert i < 7 ==> d[i] == "sha256:"[i];
    }
  }

  lemma EmbeddedSplits(named: string, digest: string)
    requires PlainText(named) && PlainText(digest)
    ensures Split(Trim(named + "@" + digest), '@') == [named, digest]
  {
    var whole := named + "@" + digest;
    assert forall i :: 0 <= i < |whole| ==>
      if i < |named| then whole[i] == named[i]
      else if i == |named| then whole[i] == '@'
      else whole[i] == digest[i - |named| - 1];
    TrimIdentity(whole);
    assert whole == named + ['@'] + digest;
    SplitPiece(named, digest, '@');
    SplitWhole(digest, '@');
  }

  lemma PlainSplits(named: string)
    requires PlainText(named)
    ensures Split(Trim(named), '@') == [named]
  {
    TrimIdentity(named);
    SplitWhole(named, '@');
  }

  lemma NamedPins(repository: string, tag: Option<string>, embedded: Option<string>, separate: string, digest: string)
    requires Repository(repository) && (tag.Some? ==> Tag(tag.value)) && Digest(digest)
    requires embedded in [None, Some(digest)] && separate in [[], digest] && (embedded.Some? || separate != [])
    ensures PinNamed(Named(repository, tag), embedded, separate) == Some(Pinned(repository + "@" + digest, digest))
  {
    NamedParts(repository, tag);
  }

  lemma EmbeddedPins(repository: string, tag: Option<string>, embedded: string, separate: Option<string>,
                     digest: string)
    requires Repository(repository) && (tag.Some? ==> Tag(tag.value))
    requires Digest(digest) && Lower(embedded) == digest && (separate.Some? ==> Lower(separate.value) == digest)
    ensures Pin(Some(Named(repository, tag) + "@" + embedded), separate)
         == Some(Pinned(repository + "@" + digest, digest))
  {
    NamedPlain(repository, tag);
    DigestText(embedded);
    EmbeddedSplits(Named(repository, tag), embedded);
    SeparateText(separate, digest);
    NamedPins(repository, tag, Some(digest), Lower(TextOf(separate)), digest);
  }

  lemma SeparateText(separate: Option<string>, digest: string)
    requires Digest(digest) && (separate.Some? ==> Lower(separate.value) == digest)
    ensures Lower(TextOf(separate)) == if separate.Some? then digest else []
  {
    if separate.Some? {
      DigestText(separate.value);
      TrimIdentity(separate.value);
    }
  }

  lemma SeparatePins(repository: string, tag: Option<string>, separate: string, digest: string)
    requires Repository(repository) && (tag.Some? ==> Tag(tag.value))
    requires Digest(digest) && Lower(separate) == digest
    ensures Pin(Some(Named(repository, tag)), Some(separate)) == Some(Pinned(repository + "@" + digest, digest))
  {
    NamedPlain(repository, tag);
    PlainSplits(Named(repository, tag));
    SeparateText(Some(separate), digest);
    NamedPins(repository, tag, None, digest, digest);
  }

  /** The reference spelled with an embedded digest, with a separate one, or with both, in any
      letter case of the digest and with or without a tag, pins to the same `repository@digest`. */
  lemma SpellingsAgree(repository: string, tag: Option<string>, embedded: string, separate: string, digest: string)
    requires Repository(repository) && (tag.Some? ==> Tag(tag.value))
    requires Digest(digest) && Lower(embedded) == digest && Lower(separate) == digest
    ensures var named, pinned := Named(repository, tag), Some(Pinned(repository + "@" + digest, digest));
      && Pin(Some(named + "@" + embedded), None) == pinned
      && Pin(Some(named), Some(separate)) == pinned
      && Pin(Some(named + "@" + embedded), Some(separate)) == pinned
  {
    EmbeddedPins(repository, tag, embedded, None, digest);
    SeparatePins(repository, tag, separate, digest);
    EmbeddedPins(repository, tag, embedded, Some(separate), digest);
  }

  lemma LowerDigest(d: string)
    requires Digest(d)
    ensures Lower(d) == d
  {
    forall i | 0 <= i < |d| ensures LowerChar(d[i]) == d[i] {
      assert i < 7 ==> d[i] == d[..7][i];
    }
  }

  /** How a reference was spelled: a repository, a tag of at most 128 characters or none, and the digest,
      in any letter case, behind the name, apart from it or both; hexadecimal and not all zeros. */
  ghost predicate SpelledAs(text: string, separate: string, repository: string, tag: Option<string>,
                            embedded: Option<string>, digest: string)
  {
    && Repository(repository)
    && (tag.Some? ==> 1 <= |tag.value| <= 128 && tag.value[0] != '.' && tag.value[0] != '-'
                      && forall i :: 0 <= i < |tag.value| ==> TagChar(tag.value[i]))
    && text == Named(repository, tag) + (if embedded.Some? then "@" + embedded.value else "")
    && (embedded.Some? || separate != [])
    && (embedded.Some? ==> Lower(embedded.value) == digest) && (separate != [] ==> Lower(separate) == digest)
    && |digest| == 71 && digest[..7] == "sha256:"
    && (forall i :: 7 <= i < 71 ==> '0' <= digest[i] <= '9' || 'a' <= digest[i] <= 'f')
    && exists i :: 7 <= i < 71 && digest[i] != '0'
  }

  /** A reference is pinned exactly when it is spelled so, and to the repository at that digest. */
  lemma PinnedIff(imageUrl: Option<string>, imageDigest: Option<string>, p: Pinned)
    ensures Pin(imageUrl, imageDigest) == Some(p)
       <==> exists repository, tag, embedded ::
              SpelledAs(TextOf(imageUrl), TextOf(imageDigest), repository, tag, embedded, p.imageDigest)
              && p.imageUrl == repository + "@" + p.imageDigest
  {
    var text, separate := TextOf(imageUrl), TextOf(imageDigest);
    if Pin(imageUrl, imageDigest) == Some(p) {
      PinSpelled(imageUrl, imageDigest, p);
    }
    if exists repository, tag, embedded :: SpelledAs(text, separate, repository, tag, embedded, p.imageDigest)
                                           && p.imageUrl == repository + "@" + p.imageDigest {
      var repository, tag, embedded :|
        SpelledAs(text, separate, repository, tag, embedded, p.imageDigest)
        && p.imageUrl == repository + "@" + p.imageDigest;
      SpelledPins(imageUrl, imageDigest, repository, tag, embedded, p);
    }
  }

  lemma PinSpelled(imageUrl: Option<string>, imageDigest: Option<string>, p: Pinned)
    requires Pin(imageUrl, imageDigest) == Some(p)
    ensures exists repository, tag, embedded ::
              SpelledAs(TextOf(imageUrl), TextOf(imageDigest), repository, tag, embedded, p.imageDigest)
              && p.imageUrl == repository + "@" + p.imageDigest
  {
    var text := TextOf(imageUrl);
    var parts := Split(text, '@');
    var embedded := if |parts| == 2 then Some(parts[1]) else None;
    OneAt(text);
    var repository, tag := NamedSpelled(parts[0], embedded, TextOf(imageDigest), p);
    assert SpelledAs(text, TextOf(imageDigest), repository, tag, embedded, p.imageDigest);
  }

  lemma OneAt(text: string)
    requires |Split(text, '@')| <= 2
    ensures var parts := Split(text, '@');
      text == parts[0] + if |parts| == 2 then "@" + parts[1] else ""
  {
    SplitJoin(text, '@');
    var parts := Split(text, '@');
    if |parts| == 2 {
      assert parts[1..] == [parts[1]];
      assert text == parts[0] + ("@" + parts[1]);
    } else {
      assert text == parts[0] + "";
    }
  }

  /** The parts of a name that was pinned. */
  lemma NamedSpelled(named: string, embedded: Option<string>, separate: string, p: Pinned)
    returns (repository: string, tag: Option<string>)
    requires PinNamed(named, if embedded.Some? then Some(Lower(embedded.value)) else None, Lower(separate)) == Some(p)
    ensures var text := named + (if embedded.Some? then "@" + embedded.value else "");
      SpelledAs(text, separate, repository, tag, embedded, p.imageDigest)
    ensures p.imageUrl == repository + "@" + p.imageDigest
  {
    var k := TagOffset(named);
    repository := if k < 0 then named else named[..k];
    tag := if k < 0 then None else Some(named[k + 1..]);
    assert named == Named(repository, tag) by {
      if k >= 0 { assert named == named[..k] + ":" + named[k + 1..]; }
    }
    assert |Lower(separate)| == |separate|;
    assert embedded.Some? ==> |Lower(embedded.value)| == |embedded.value|;
  }

  lemma SpelledPins(imageUrl: Option<string>, imageDigest: Option<string>, repository: string, tag: Option<string>,
                    embedded: Option<string>, p: Pinned)
    requires SpelledAs(TextOf(imageUrl), TextOf(imageDigest), repository, tag, embedded, p.imageDigest)
    requires p.imageUrl == repository + "@" + p.imageDigest
    ensures Pin(imageUrl, imageDigest) == Some(p)
  {
    var named, text, separate := Named(repository, tag), TextOf(imageUrl), TextOf(imageDigest);
    NamedPlain(repository, tag);
    if embedded.Some? {
      DigestText(embedded.value);
      PlainPieces(named, embedded.value);
      assert text == named + ['@'] + embedded.value;
    } else {
      SplitWhole(named, '@');
      assert text == named;
    }
    assert separate == [] ==> Lower(separate) == [];
    NamedPins(repository, tag, if embedded.Some? then Some(p.imageDigest) else None, Lower(separate), p.imageDigest);
  }

  lemma PlainPieces(named: string, digest: string)
    requires PlainText(named) && PlainText(digest)
    ensures Split(named + ['@'] + digest, '@') == [named, digest]
  {
    SplitPiece(named, digest, '@');
    SplitWhole(digest, '@');
  }

  /** Pinning what pinning produced changes nothing. */
  lemma PinIdempotent(imageUrl: Option<string>, imageDigest: Option<string>)
    requires Pin(imageUrl, imageDigest).Some?
    ensures var p := Pin(imageUrl, imageDigest).value;
      Pin(Some(p.imageUrl), Some(p.imageDigest)) == Some(p) && p.imageUrl != []
  {
    var p := Pin(imageUrl, imageDigest).value;
    var named := Split(TextOf(imageUrl), '@')[0];
    var k := TagOffset(named);
    var repository := if k < 0 then named else named[..k];
    LowerDigest(p.imageDigest);
    EmbeddedPins(repository, None, p.imageDigest, Some(p.imageDigest), p.imageDigest);
  }

  /** A name of the specification: components joined by slashes. */
  predicate OciName(s: string) {
    var segments := Split(s, '/');
    forall i :: 0 <= i < |segments| ==> Segment(segments[i])
  }

  /** A name of the specification is accepted exactly when its first component either stands
      alone, has no dot, or also reads as a registry host. */
  lemma OciNameAcceptedIff(s: string)
    requires OciName(s)
    ensures var segments := Split(s, '/');
      Repository(s) <==> |segments| == 1 || '.' !in segments[0] || RegistryHost(segments[0])
  {
    var segments := Split(s, '/');
    SegmentTailChars(segments[0]);
    SplitWhole(segments[0], ':');
  }

  /** One that is refused: a doubled underscore in a first component with a dot. */
  lemma OciNameRefused(name: string)
    requires name == "a__b.c" + ['/'] + "x"
    ensures OciName(name) && !Repository(name)
  {
    var first, rest := "a__b.c", "x";
    RefusedParts(name, first, rest);
    UnderscoredSegment(first, rest);
    NotAHost(first);
    NotAHostRefused(name, first, rest);
  }

  lemma NotAHostRefused(name: string, first: string, rest: string)
    requires Split(name, '/') == [first, rest] && Segment(first) && Segment(rest)
    requires '.' in first && !RegistryHost(first)
    ensures OciName(name) && !Repository(name)
  {
    OciNameAcceptedIff(name);
  }

  lemma RefusedParts(name: string, first: string, rest: string)
    requires first == "a__b.c" && rest == "x" && name == first + ['/'] + rest
    ensures Split(name, '/') == [first, rest]
  {
    SplitPiece(first, rest, '/');
    SplitWhole(rest, '/');
  }

  lemma NotAHost(first: string)
    requires first == "a__b.c"
    ensures !RegistryHost(first) && '.' in first
  {
    assert !IsLowerAlnum(first[1]) && !IsLowerAlnum(first[2]);
    assert first[4] == '.';
  }

  lemma {:induction false} UnderscoredSegment(first: string, rest: string)
    requires first == "a__b.c" && rest == "x"
    ensures Segment(first) && Segment(rest)
  {
    var t := first[1..];
    assert t[2..] == "b.c" && t[2..][1..] == ".c" && ".c"[1..] == "c";
    assert SegmentTail("c") && SegmentTail(".c") && SegmentTail("b.c");
    assert t == "__b.c" && SegmentTail(t);
  }
}
