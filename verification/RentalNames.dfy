/** Names, hosts and redirect targets of rented domains
    (packages/core/src/domain-rentals.ts, the pure part). */
module RentalNames {
  import opened Text

  const NAME_MAX_LENGTH := 63
  const TARGET_MAX_LENGTH := 4096

  datatype Code =
    | NameInvalid | NameReserved | NameTaken
    | TargetInvalid | RedirectLoop
    | InputInvalid | VersionRequired | VersionConflict
    | AccountUnavailable | QuotaExceeded | NotFound
    | HostnameConflict | HostnameInvalid
    | Fault  // an adapter call was rejected

  datatype Result<+T> = Ok(value: T) | Err(code: Code)

  /** One member of a decoded request body. */
  datatype Value = Undefined | Text(text: string) | Flag(flag: bool) | Number(number: int) | Other

  /** What `new URL` yields; `href` is the serialization. */
  datatype Url = Url(protocol: string, username: string, password: string, hostname: string, href: string)

  /** `reserved` is the reserved-name test, `lower` lower-casing, `parse` the URL parser and `local`
      the test for internal destinations; no theorem depends on more than it states about them. */
  datatype Config = Config(
    baseDomain: string, reserved: string -> bool,
    lower: string -> string, parse: string -> Option<Url>, local: string -> bool)

  /** The pattern a name must match: 1 to 63 of `[a-z0-9-]`, no hyphen at either end. */
  predicate IsLabel(s: string) {
    && 1 <= |s| <= NAME_MAX_LENGTH
    && (forall i :: 0 <= i < |s| ==> IsLabelChar(s[i]))
    && IsLowerAlnum(s[0]) && IsLowerAlnum(s[|s| - 1])
  }

  /** What the configuration loader establishes about the base domain. */
  predicate ValidBase(base: string) {
    && |base| <= 189
    && |Split(base, '.')| >= 2
    && forall l :: l in Split(base, '.') ==> IsLabel(l)
  }

  function NormalizeName(value: Value, config: Config): (r: Result<string>)
    ensures r.Ok? <==> value.Text? && RentableName(config.lower(Trim(value.text)), config)
    ensures r.Ok? ==> r.value == config.lower(Trim(value.text))
  {
    if !value.Text? then Err(NameInvalid)
    else
      var name := config.lower(Trim(value.text));
      if !IsLabel(name) then Err(NameInvalid)
      else if config.reserved(name) then Err(NameReserved)
      else Ok(name)
  }

  /** On label texts in any letter case, lower-casing folds the ASCII letters. */
  ghost predicate FoldsLabels(config: Config) {
    forall s :: (forall i :: 0 <= i < |s| ==> IsLabelChar(LowerChar(s[i]))) ==> config.lower(s) == Lower(s)
  }

  /** A rentable name is accepted as itself from every spelling of it: any letter case, any white
      space around it. */
  lemma NameSpellingsAccepted(name: string, before: string, cased: string, after: string, config: Config)
    requires FoldsLabels(config) && RentableName(name, config)
    requires Lower(cased) == name
    requires forall i :: 0 <= i < |before| ==> IsSpace(before[i])
    requires forall i :: 0 <= i < |after| ==> IsSpace(after[i])
    ensures NormalizeName(Text(before + cased + after), config) == Ok(name)
  {
    assert |Lower(cased)| == |cased|;
    forall i | 0 <= i < |cased| ensures IsLabelChar(LowerChar(cased[i])) && !IsSpace(cased[i]) {
      assert Lower(cased)[i] == name[i];
    }
    TrimAround(before, cased, after);
  }

  // ---------------------------------------------------------------- hosts

  predicate IsHostChar(c: char) {
    'a' <= c <= 'z' || 'A' <= c <= 'Z' || IsDigit(c) || c == '.' || c == '-'
  }

  /** Index of the first colon, or the length. */
  function PortStart(s: string): (k: nat)
    ensures k <= |s|
    ensures forall i :: 0 <= i < k ==> s[i] != ':'
    ensures k < |s| ==> s[k] == ':'
  {
    if s == [] || s[0] == ':' then 0 else 1 + PortStart(s[1..])
  }

  /** A host header: host characters, then optionally a colon and one to five digits. */
  predicate HostSyntax(s: string) {
    var k := PortStart(s);
    && k > 0 && (forall i :: 0 <= i < k ==> IsHostChar(s[i]))
    && (k < |s| ==> 2 <= |s| - k <= 6 && forall i :: k < i < |s| ==> IsDigit(s[i]))
  }

  function StripDot(s: string): string {
    if s != [] && s[|s| - 1] == '.' then s[..|s| - 1] else s
  }

  /** Lower case, without port and without one trailing dot. */
  function HostName(host: string): string {
    StripDot(Lower(host[..PortStart(host)]))
  }

  /** `hostname` is an unreserved name directly under the base domain. */
  predicate Rentable(hostname: string, config: Config) {
    var suffix := "." + config.baseDomain;
    EndsWith(hostname, suffix) && RentableName(hostname[..|hostname| - |suffix|], config)
  }

  predicate RentableName(name: string, config: Config) {
    IsLabel(name) && !config.reserved(name)
  }

  function RentalHostname(host: string, config: Config): (r: Option<string>)
    ensures r.Some? ==> Rentable(r.value, config)
  {
    if HostSyntax(host) && Rentable(HostName(host), config) then Some(HostName(host)) else None
  }

  lemma BaseCharacters(base: string)
    requires ValidBase(base)
    ensures base != [] && base[|base| - 1] != '.'
    ensures forall i :: 0 <= i < |base| ==> IsLabelChar(base[i]) || base[i] == '.'
  {
    SplitJoin(base, '.');
    JoinedLabels(Split(base, '.'));
  }

  lemma {:induction false} JoinedLabels(labels: seq<string>)
    requires labels != []
    requires forall l :: l in labels ==> IsLabel(l)
    ensures var s := Join(labels, ['.']);
      && s != [] && s[|s| - 1] != '.'
      && forall i :: 0 <= i < |s| ==> IsLabelChar(s[i]) || s[i] == '.'
  {
    if |labels| == 1 {
      assert labels[0] in labels;
    } else {
      JoinedLabels(labels[1..]);
      assert labels[0] in labels;
    }
  }

  lemma RentableShape(name: string, config: Config)
    requires RentableName(name, config)
    ensures Rentable(name + "." + config.baseDomain, config)
  {
    var suffix := "." + config.baseDomain;
    var hostname := name + "." + config.baseDomain;
    assert hostname == name + suffix;
    assert hostname[|hostname| - |suffix|..] == suffix;
    assert hostname[..|hostname| - |suffix|] == name;
  }

  /** A rentable host names itself: the host recognizer accepts it and returns it unchanged. */
  lemma RentableHostRecognized(hostname: string, config: Config)
    requires ValidBase(config.baseDomain)
    requires Rentable(hostname, config)
    ensures RentalHostname(hostname, config) == Some(hostname)
  {
    LowerHost(hostname, config);
    assert hostname[..|hostname|] == hostname;
    DotStripped(hostname, "", hostname, config);
    assert hostname + "" == hostname;
  }

  /** The ways a Host header may name a host: its name in any letter case, a trailing dot or none, and
      a port of one to five digits or none. */
  predicate Addresses(cased: string, dot: string, port: string, hostname: string) {
    && Lower(cased) == hostname && (dot == "" || dot == ".")
    && (port == "" || (2 <= |port| <= 6 && port[0] == ':' && forall i :: 1 <= i < |port| ==> '0' <= port[i] <= '9'))
  }

  /** The recognizer finds a rentable host name in exactly the headers that name it. */
  lemma HostRecognizedIff(host: string, hostname: string, config: Config)
    requires ValidBase(config.baseDomain) && Rentable(hostname, config)
    ensures RentalHostname(host, config) == Some(hostname)
       <==> exists cased, dot, port :: Addresses(cased, dot, port, hostname) && host == cased + dot + port
  {
    if RentalHostname(host, config) == Some(hostname) {
      var k := PortStart(host);
      var name, port := host[..k], host[k..];
      assert host == name + port;
      var dotted := name[k - 1] == '.';
      var cased, dot := if dotted then name[..k - 1] else name, if dotted then "." else "";
      assert Lower(cased) == hostname;
      assert name == cased + dot;
      assert Addresses(cased, dot, port, hostname);
    }
    if exists cased, dot, port :: Addresses(cased, dot, port, hostname) && host == cased + dot + port {
      var cased, dot, port :| Addresses(cased, dot, port, hostname) && host == cased + dot + port;
      AddressRecognized(cased, dot, port, hostname, config);
    }
  }

  lemma AddressRecognized(cased: string, dot: string, port: string, hostname: string, config: Config)
    requires ValidBase(config.baseDomain) && Rentable(hostname, config) && Addresses(cased, dot, port, hostname)
    ensures RentalHostname(cased + dot + port, config) == Some(hostname)
  {
    LowerHost(hostname, config);
    CasedSyntax(cased, hostname);
    AddressSyntax(cased, dot, port);
    DotStripped(cased, dot, hostname, config);
  }

  lemma CasedSyntax(cased: string, hostname: string)
    requires Lower(cased) == hostname && HostSyntax(hostname) && PortStart(hostname) == |hostname|
    ensures HostSyntax(cased) && PortStart(cased) == |cased|
  {
    assert |cased| == |Lower(cased)|;
    forall i | 0 <= i < |cased| ensures IsHostChar(cased[i]) && cased[i] != ':' {
      assert Lower(cased)[i] == LowerChar(cased[i]) && hostname[i] == Lower(cased)[i] && IsHostChar(hostname[i]);
    }
  }

  /** A host name without a port stays one with a dot and a port after it. */
  lemma AddressSyntax(cased: string, dot: string, port: string)
    requires HostSyntax(cased) && PortStart(cased) == |cased| && Addresses(cased, dot, port, Lower(cased))
    ensures HostSyntax(cased + dot + port) && (cased + dot + port)[..PortStart(cased + dot + port)] == cased + dot
  {
    var name := cased + dot;
    assert forall i :: 0 <= i < |cased| ==> IsHostChar(cased[i]) && cased[i] != ':';
    forall i | 0 <= i < |name| ensures IsHostChar(name[i]) && name[i] != ':' {
      assert i < |cased| ==> name[i] == cased[i];
    }
    PortAppended(name, port);
  }

  lemma PortAppended(name: string, port: string)
    requires name != [] && forall i :: 0 <= i < |name| ==> IsHostChar(name[i]) && name[i] != ':'
    requires port == "" || (2 <= |port| <= 6 && port[0] == ':' && forall i :: 1 <= i < |port| ==> '0' <= port[i] <= '9')
    ensures HostSyntax(name + port) && (name + port)[..PortStart(name + port)] == name
  {
    var host := name + port;
    PortCut(name, port);
    forall i | 0 <= i < |name| ensures IsHostChar(host[i]) {
      assert host[i] == name[i];
    }
    forall i | |name| < i < |host| ensures IsDigit(host[i]) {
      assert host[i] == port[i - |name|];
    }
  }

  lemma DotStripped(cased: string, dot: string, hostname: string, config: Config)
    requires ValidBase(config.baseDomain) && Rentable(hostname, config)
    requires Lower(cased) == hostname && (dot == "" || dot == ".")
    ensures StripDot(Lower(cased + dot)) == hostname
  {
    BaseCharacters(config.baseDomain);
    var suffix := "." + config.baseDomain;
    assert hostname[|hostname| - 1] == suffix[|suffix| - 1];
    assert Lower(cased + dot) == hostname + dot;
  }

  lemma LowerHost(hostname: string, config: Config)
    requires ValidBase(config.baseDomain) && Rentable(hostname, config)
    ensures PortStart(hostname) == |hostname| && Lower(hostname) == hostname && HostSyntax(hostname)
  {
    BaseCharacters(config.baseDomain);
    var suffix := "." + config.baseDomain;
    var k := |hostname| - |suffix|;
    forall i | 0 <= i < |hostname| ensures IsHostChar(hostname[i]) && LowerChar(hostname[i]) == hostname[i] {
      if i < k {
        assert hostname[i] == hostname[..k][i];
      } else {
        assert hostname[i] == suffix[i - k];
      }
    }
  }

  // ---------------------------------------------------------------- targets

  predicate Screened(c: char) {
    c <= ' ' || c == '\U{007F}' || c == '\\'
  }

  /** Contains `%0a` or `%0d` in either case. */
  predicate HasEncodedNewline(s: string) {
    exists i :: 0 <= i < |s| - 2 && EncodedNewlineAt(s, i)
  }

  predicate EncodedNewlineAt(s: string, i: nat)
    requires i + 2 < |s|
  {
    s[i] == '%' && s[i + 1] == '0' && LowerChar(s[i + 2]) in ['a', 'd']
  }

  predicate AcceptableText(s: string) {
    && Trim(s) != [] && |s| <= TARGET_MAX_LENGTH
    && (forall i :: 0 <= i < |Trim(s)| ==> !Screened(Trim(s)[i]))
    && !HasEncodedNewline(s)
  }

  predicate AcceptableUrl(u: Url, config: Config) {
    && u.protocol in ["http:", "https:"] && u.username == [] && u.password == []
    && u.hostname != [] && !config.local(u.hostname)
  }

  /** A destination that is neither internal nor itself a rentable name. */
  predicate AdmittedUrl(u: Url, config: Config) {
    AcceptableUrl(u, config) && RentalHostname(u.hostname, config) == None
  }

  function NormalizeTarget(value: Value, config: Config): (r: Result<string>)
    ensures r.Ok? ==> value.Text? && |r.value| <= TARGET_MAX_LENGTH
    ensures r.Ok? ==> config.parse(Trim(value.text)).Some? && r.value == config.parse(Trim(value.text)).value.href
                      && AdmittedUrl(config.parse(Trim(value.text)).value, config)
  {
    if !value.Text? || !AcceptableText(value.text) then Err(TargetInvalid)
    else match config.parse(Trim(value.text))
      case None => Err(TargetInvalid)
      case Some(u) =>
        if !AcceptableUrl(u, config) then Err(TargetInvalid)
        else if RentalHostname(u.hostname, config) != None then Err(RedirectLoop)
        else if |u.href| > TARGET_MAX_LENGTH then Err(TargetInvalid)
        else Ok(u.href)
  }

  /** A text the screening lets through: no control character, blank, backslash or encoded newline. */
  predicate Clean(s: string) {
    (forall i :: 0 <= i < |s| ==> !Screened(s[i])) && !HasEncodedNewline(s)
  }

  /** What is assumed of the URL parser on texts the screening lets through: the serialization is
      such a text too, without white space, and parses back to the same URL. */
  ghost predicate LawfulParser(config: Config) {
    forall s :: Clean(s) && config.parse(s).Some? ==> LawfulUrl(config.parse(s).value, config)
  }

  ghost predicate LawfulUrl(u: Url, config: Config) {
    && config.parse(u.href) == Some(u) && u.href != [] && Clean(u.href)
    && forall i :: 0 <= i < |u.href| ==> !IsSpace(u.href[i])
  }

  lemma {:induction false} TrimStartKeepsClean(s: string)
    requires !HasEncodedNewline(s)
    ensures !HasEncodedNewline(TrimStart(s))
  {
    if s != [] && IsSpace(s[0]) {
      assert forall i :: 0 <= i < |s[1..]| - 2 ==> EncodedNewlineAt(s[1..], i) == EncodedNewlineAt(s, i + 1);
      TrimStartKeepsClean(s[1..]);
    }
  }

  lemma {:induction false} TrimEndKeepsClean(s: string)
    requires !HasEncodedNewline(s)
    ensures !HasEncodedNewline(TrimEnd(s))
  {
    if s != [] && IsSpace(s[|s| - 1]) {
      var t := s[..|s| - 1];
      assert forall i :: 0 <= i < |t| - 2 ==> EncodedNewlineAt(t, i) == EncodedNewlineAt(s, i);
      TrimEndKeepsClean(t);
    }
  }

  /** Normalizing a normalized target returns it unchanged, so serving a stored target cannot
      fail on it. */
  lemma NormalizeTargetIdempotent(value: Value, config: Config)
    requires LawfulParser(config)
    requires NormalizeTarget(value, config).Ok?
    ensures NormalizeTarget(Text(NormalizeTarget(value, config).value), config) == NormalizeTarget(value, config)
  {
    AcceptedIsLawful(value, config);
    TrimIdentity(NormalizeTarget(value, config).value);
  }

  /** The parser law speaks about every target that is accepted. */
  lemma AcceptedIsLawful(value: Value, config: Config)
    requires LawfulParser(config)
    requires NormalizeTarget(value, config).Ok?
    ensures LawfulUrl(config.parse(Trim(value.text)).value, config)
  {
    TrimStartKeepsClean(value.text);
    TrimEndKeepsClean(TrimStart(value.text));
    assert Clean(Trim(value.text));
  }

  // ---------------------------------------------------------------- redirect chains

  /** A Host header a client may send for `hostname`: the name in any letter case, an optional
      trailing dot, an optional port. */
  ghost predicate HostSpelling(host: string, hostname: string) {
    exists cased, dot, port :: Spells(cased, dot, port, hostname) && host == cased + dot + port
  }

  ghost predicate Spells(cased: string, dot: string, port: string, hostname: string) {
    Lower(cased) == Lower(hostname) && dot in ["", "."] && (port == [] || port[0] == ':')
  }

  /** If a host name is not rentable, no spelling of it is: adding a port, a trailing dot or
      another letter case never turns an admitted redirect target into a rented name. */
  lemma SpellingsStayOutside(host: string, hostname: string, config: Config)
    requires ValidBase(config.baseDomain)
    requires RentalHostname(hostname, config) == None
    requires HostSpelling(host, hostname)
    ensures RentalHostname(host, config) == None
  {
    var cased, dot, port :| Spells(cased, dot, port, hostname) && host == cased + dot + port;
    SameLetters(cased, hostname);
    assert host == cased + (dot + port);
    if ':' in cased {
      if dot + port == [] {
        assert host == cased;
        CasingIrrelevant(cased, hostname, config);
      } else {
        ColonInside(cased, dot + port);
      }
    } else if RentalHostname(host, config).Some? {
      NoColonHost(cased, dot, port, config);
      CasingIrrelevant(cased, hostname, config);
    }
  }

  lemma SameLetters(a: string, b: string)
    requires Lower(a) == Lower(b)
    ensures |a| == |b|
    ensures forall i :: 0 <= i < |a| ==> LowerChar(a[i]) == LowerChar(b[i])
  {
    assert |Lower(a)| == |a| && |Lower(b)| == |b|;
    forall i | 0 <= i < |a| ensures LowerChar(a[i]) == LowerChar(b[i]) {
      assert Lower(a)[i] == Lower(b)[i];
    }
  }

  lemma CasingIrrelevant(a: string, b: string, config: Config)
    requires Lower(a) == Lower(b)
    ensures RentalHostname(a, config) == RentalHostname(b, config)
  {
    SameLetters(a, b);
    forall i | 0 <= i < |a|
      ensures (a[i] == ':' <==> b[i] == ':') && (IsHostChar(a[i]) <==> IsHostChar(b[i]))
              && (IsDigit(a[i]) <==> IsDigit(b[i]))
    {
      assert LowerChar(a[i]) == LowerChar(b[i]);
    }
    var k := PortStart(a);
    assert PortStart(b) == k;
    assert HostSyntax(a) == HostSyntax(b);
    assert Lower(a[..k]) == Lower(b[..k]);
  }

  /** Nothing but digits follows a colon, so a name with a colon takes neither dot nor port. */
  lemma ColonInside(cased: string, tail: string)
    requires ':' in cased && tail != [] && tail[0] in ['.', ':']
    ensures !HostSyntax(cased + tail)
  {
    var host := cased + tail;
    var j :| 0 <= j < |cased| && cased[j] == ':';
    assert host[j] == ':';
    assert host[|cased|] == tail[0] && !IsDigit(tail[0]);
  }

  lemma PortCut(name: string, port: string)
    requires ':' !in name && (port == [] || port[0] == ':')
    ensures PortStart(name + port) == |name| && (name + port)[..|name|] == name
  {
    var k := PortStart(name + port);
    assert forall i :: 0 <= i < |name| ==> (name + port)[i] == name[i];
    assert port != [] ==> (name + port)[|name|] == ':';
  }

  lemma NoColonHost(cased: string, dot: string, port: string, config: Config)
    requires ValidBase(config.baseDomain) && ':' !in cased
    requires dot in ["", "."] && (port == [] || port[0] == ':')
    requires RentalHostname(cased + dot + port, config).Some?
    ensures RentalHostname(cased, config).Some?
  {
    var name := cased + dot;
    PortCut(name, port);
    PortCut(cased, []);
    assert cased + [] == cased;
    assert Lower(name) == Lower(cased) + dot;
    OneDot(cased, dot, config);
    BareSyntax(cased, dot, port);
  }

  /** Without dot and port a host name is still one. */
  lemma BareSyntax(cased: string, dot: string, port: string)
    requires cased != [] && ':' !in cased && PortStart(cased + dot + port) == |cased + dot|
    requires HostSyntax(cased + dot + port)
    ensures HostSyntax(cased)
  {
    var host := cased + dot + port;
    PortCut(cased, []);
    assert cased + [] == cased;
    forall i | 0 <= i < |cased| ensures IsHostChar(cased[i]) {
      assert host[i] == cased[i];
    }
  }

  /** A name that ends in the base domain after one dot is stripped ended in it already. */
  lemma OneDot(name: string, dot: string, config: Config)
    requires ValidBase(config.baseDomain)
    requires dot in ["", "."]
    requires Rentable(StripDot(Lower(name) + dot), config)
    ensures name != []
    ensures StripDot(Lower(name) + dot) == StripDot(Lower(name))
  {
    BaseCharacters(config.baseDomain);
    var l, suffix := Lower(name), "." + config.baseDomain;
    if dot == "." {
      assert StripDot(l + dot) == l;
      assert l[|l| - 1] == suffix[|suffix| - 1];
    } else {
      assert l + dot == l;
    }
  }
}
