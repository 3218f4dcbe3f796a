/** Generated DNS labels and host names of tenants
    (packages/core/src/domain-router.ts, packages/core/src/preview-deployments.ts). */
module DomainRouter {
  import opened Text
  import opened RentalNames
  import opened ReservedNames
  import Sorting

  const MAX_PREVIEW_IDENTITY := 39
  const MAX_LABEL := 63
  const SUFFIX_LENGTH := 12
  const PREVIEW := "preview"
  const PR := "pr-"
  const NUMBER := "{number}"
  const MAIN := "web"  // the service that needs no name of its own

  /** `lower` is lower-casing, `hash` the hexadecimal SHA-256. */
  datatype Library = Library(lower: string -> string, hash: string -> string)

  ghost predicate Lawful(lib: Library) {
    && (forall s :: (forall i :: 0 <= i < |s| ==> IsLabelChar(s[i])) ==> lib.lower(s) == s)
    && (forall s :: Suffixed(lib.hash(s)))
  }

  /** Long enough for a label's suffix, and alphanumeric. */
  ghost predicate Suffixed(hash: string) {
    |hash| >= SUFFIX_LENGTH && forall i :: 0 <= i < |hash| ==> IsLowerAlnum(hash[i])
  }

  // ---------------------------------------------------------------- one route part

  function SkipOthers(s: string): (r: string)
    ensures |r| <= |s| && (s != [] && !IsLabelChar(s[0]) ==> |r| < |s|)
  {
    if s != [] && !IsLabelChar(s[0]) then SkipOthers(s[1..]) else s
  }

  /** Every run of characters outside `[a-z0-9-]` becomes one hyphen. */
  function Squash(s: string): string
    decreases |s|
  {
    if s == [] then []
    else if IsLabelChar(s[0]) then [s[0]] + Squash(s[1..])
    else ['-'] + Squash(SkipOthers(s))
  }

  function StripLeading(s: string): string {
    if s != [] && s[0] == '-' then StripLeading(s[1..]) else s
  }

  function StripTrailing(s: string): string {
    if s != [] && s[|s| - 1] == '-' then StripTrailing(s[..|s| - 1]) else s
  }

  function NormalizeRoutePart(value: string, lib: Library): string {
    var part := StripTrailing(StripLeading(Squash(lib.lower(Trim(value)))));
    if part == [] then "item" else part
  }

  /** Non-empty, of `[a-z0-9-]`, alphanumeric at both ends: a DNS label but for its length. */
  predicate RoutePart(s: string) {
    && s != [] && (forall i :: 0 <= i < |s| ==> IsLabelChar(s[i]))
    && IsLowerAlnum(s[0]) && IsLowerAlnum(s[|s| - 1])
  }

  function BoundedDnsLabel(value: string, limit: nat, stableIdentity: Option<string>, lib: Library): string {
    var normalized := NormalizeRoutePart(value, lib);
    if |normalized| <= limit then normalized
    else
      var stable := if stableIdentity.Some? then Trim(stableIdentity.value) else [];
      Shortened(normalized, limit, if stable != [] then stable else normalized, lib)
  }

  /** The front of the label and a hash of its identity. */
  function Shortened(normalized: string, limit: nat, identity: string, lib: Library): string
    requires |normalized| > limit
  {
    var hash := lib.hash(identity);
    var suffix := if |hash| <= SUFFIX_LENGTH then hash else hash[..SUFFIX_LENGTH];
    var front := StripTrailing(if limit >= |suffix| + 1 then normalized[..limit - |suffix| - 1] else []);
    if front != [] then front + "-" + suffix else if |suffix| <= limit then suffix else suffix[..limit]
  }

  // ---------------------------------------------------------------- labels and host names

  function TenantIdentity(organization: string, project: string, lib: Library): string {
    NormalizeRoutePart(organization, lib) + "--" + NormalizeRoutePart(project, lib)
  }

  function ServiceIdentity(organization: string, project: string, service: string, lib: Library): string {
    var tenant, part := TenantIdentity(organization, project, lib), NormalizeRoutePart(service, lib);
    if part == MAIN then tenant else tenant + "--" + part
  }

  function ZonedLabel(zone: string, identity: string, lib: Library): string {
    BoundedDnsLabel(zone + "--" + identity, MAX_LABEL, None, lib)
  }

  function PreviewLabel(preview: string, identity: string, lib: Library): string {
    PREVIEW + "--" + preview + "--" + BoundedDnsLabel(identity, MAX_PREVIEW_IDENTITY, None, lib)
  }

  /** The generated routes of a tenant: a service, a pull-request preview of it, the consoles of a
      service, a resource, a project and a workspace. */
  datatype Route =
    | Service(organization: string, project: string, name: string)
    | Preview(organization: string, project: string, name: string, preview: string)
    | ServiceConsole(organization: string, project: string, name: string)
    | ResourceConsole(organization: string, project: string, name: string)
    | ProjectConsole(organization: string, project: string)
    | WorkspaceConsole(organization: string)

  function RouteIdentity(route: Route, lib: Library): string {
    match route
    case Service(o, p, n) => ServiceIdentity(o, p, n, lib)
    case Preview(o, p, n, _) => ServiceIdentity(o, p, n, lib)
    case ServiceConsole(o, p, n) => TenantIdentity(o, p, lib) + "-" + NormalizeRoutePart(n, lib)
    case ResourceConsole(o, p, n) => TenantIdentity(o, p, lib) + "-" + NormalizeRoutePart(n, lib)
    case ProjectConsole(o, p) => TenantIdentity(o, p, lib)
    case WorkspaceConsole(o) => NormalizeRoutePart(o, lib)
  }

  function Zone(route: Route): string {
    match route
    case Service(_, _, _) => "apps"
    case Preview(_, _, _, _) => PREVIEW
    case ResourceConsole(_, _, _) => "resources"
    case _ => "console"
  }

  function RouteLabel(route: Route, lib: Library): string {
    if route.Preview? then PreviewLabel(NormalizeRoutePart(route.preview, lib), RouteIdentity(route, lib), lib)
    else ZonedLabel(Zone(route), RouteIdentity(route, lib), lib)
  }

  function RouteHostname(route: Route, baseDomain: string, lib: Library): string {
    RouteLabel(route, lib) + "." + baseDomain
  }

  /** The host name of a service: its custom domain verbatim, or its preview or production route. */
  function ServiceHostname(organization: string, project: string, service: string, baseDomain: string,
                           customDomain: string, preview: string, lib: Library): string {
    if customDomain != [] then customDomain
    else RouteHostname(
      if preview != [] then Preview(organization, project, service, preview)
      else Service(organization, project, service), baseDomain, lib)
  }

  function PreviewPattern(organization: string, project: string, service: string, publicService: bool,
                          baseDomain: string, lib: Library): string {
    var identity := PatternIdentity(organization, project, service, publicService, lib);
    var route := BoundedDnsLabel(identity, MAX_PREVIEW_IDENTITY, None, lib);
    PREVIEW + "--" + PR + NUMBER + "--" + route + "." + baseDomain
  }

  /** A service that is not a public web service is previewed under its project. */
  function PatternIdentity(organization: string, project: string, service: string, publicService: bool,
                           lib: Library): string {
    if publicService then ServiceIdentity(organization, project, service, lib)
    else TenantIdentity(organization, project, lib)
  }

  // ---------------------------------------------------------------- route parts are labels

  lemma {:induction false} SquashChars(s: string)
    ensures forall i :: 0 <= i < |Squash(s)| ==> IsLabelChar(Squash(s)[i])
    decreases |s|
  {
    if s != [] {
      SquashChars(if IsLabelChar(s[0]) then s[1..] else SkipOthers(s));
    }
  }

  lemma {:induction false} SquashIdentity(s: string)
    requires forall i :: 0 <= i < |s| ==> IsLabelChar(s[i])
    ensures Squash(s) == s
  {
    if s != [] {
      SquashIdentity(s[1..]);
      assert s == [s[0]] + s[1..];
    }
  }

  /** Between label texts a run of other characters becomes one hyphen. */
  lemma {:induction false} SquashJoins(a: string, gap: string, b: string)
    requires forall i :: 0 <= i < |a| ==> IsLabelChar(a[i])
    requires forall i :: 0 <= i < |b| ==> IsLabelChar(b[i])
    requires gap != [] && forall i :: 0 <= i < |gap| ==> !IsLabelChar(gap[i])
    ensures Squash(a + gap + b) == a + ['-'] + b
    decreases |a|
  {
    var s := a + gap + b;
    if a == [] {
      assert s == gap + b;
      SkipGap(gap, b);
      SquashIdentity(b);
    } else {
      assert s[1..] == a[1..] + gap + b;
      SquashJoins(a[1..], gap, b);
      assert [a[0]] + (a[1..] + ['-'] + b) == a + ['-'] + b;
    }
  }

  lemma {:induction false} SkipGap(gap: string, b: string)
    requires b != [] ==> IsLabelChar(b[0])
    requires forall i :: 0 <= i < |gap| ==> !IsLabelChar(gap[i])
    ensures SkipOthers(gap + b) == b
  {
    if gap == [] {
      assert gap + b == b;
    } else {
      assert (gap + b)[1..] == gap[1..] + b;
      SkipGap(gap[1..], b);
    }
  }

  lemma {:induction false} StripLeadingChars(s: string)
    requires forall i :: 0 <= i < |s| ==> IsLabelChar(s[i])
    ensures var r := StripLeading(s); (forall i :: 0 <= i < |r| ==> IsLabelChar(r[i])) && (r != [] ==> r[0] != '-')
  {
    if s != [] && s[0] == '-' {
      StripLeadingChars(s[1..]);
    }
  }

  lemma {:induction false} StripTrailingPrefix(s: string)
    ensures var r := StripTrailing(s); r <= s && (r != [] ==> r[|r| - 1] != '-')
  {
    if s != [] && s[|s| - 1] == '-' {
      StripTrailingPrefix(s[..|s| - 1]);
    }
  }

  lemma NormalizedIsRoutePart(value: string, lib: Library)
    ensures RoutePart(NormalizeRoutePart(value, lib))
  {
    var squashed := Squash(lib.lower(Trim(value)));
    SquashChars(lib.lower(Trim(value)));
    StripLeadingChars(squashed);
    StripTrailingPrefix(StripLeading(squashed));
  }

  lemma NormalizeIdentity(s: string, lib: Library)
    requires Lawful(lib) && RoutePart(s)
    ensures NormalizeRoutePart(s, lib) == s
  {
    TrimIdentity(s);
    SquashIdentity(s);
  }

  lemma SuffixShape(identity: string, lib: Library)
    requires Lawful(lib)
    ensures |lib.hash(identity)| >= SUFFIX_LENGTH
    ensures forall i :: 0 <= i < |lib.hash(identity)| ==> IsLowerAlnum(lib.hash(identity)[i])
  {
  }

  lemma FrontIsPart(normalized: string, k: nat)
    requires RoutePart(normalized) && k <= |normalized|
    ensures var front := StripTrailing(normalized[..k]); |front| <= k && (front != [] ==> RoutePart(front))
  {
    var cut := normalized[..k];
    StripTrailingPrefix(cut);
    var front := StripTrailing(cut);
    assert forall i :: 0 <= i < |front| ==> front[i] == cut[i] && cut[i] == normalized[i] && IsLabelChar(front[i]);
  }

  lemma ShortenedShape(normalized: string, limit: nat, identity: string, lib: Library)
    requires Lawful(lib) && RoutePart(normalized) && |normalized| > limit
    ensures |Shortened(normalized, limit, identity, lib)| <= limit
    ensures limit >= 1 ==> RoutePart(Shortened(normalized, limit, identity, lib))
  {
    SuffixShape(identity, lib);
    SuffixedShape(normalized, limit, identity, lib);
  }

  lemma SuffixedShape(normalized: string, limit: nat, identity: string, lib: Library)
    requires RoutePart(normalized) && |normalized| > limit
    requires |lib.hash(identity)| >= SUFFIX_LENGTH
    requires forall i :: 0 <= i < |lib.hash(identity)| ==> IsLowerAlnum(lib.hash(identity)[i])
    ensures |Shortened(normalized, limit, identity, lib)| <= limit
    ensures limit >= 1 ==> RoutePart(Shortened(normalized, limit, identity, lib))
  {
    var hash := lib.hash(identity);
    var suffix := hash[..SUFFIX_LENGTH];
    assert forall i :: 0 <= i < SUFFIX_LENGTH ==> suffix[i] == hash[i] && IsLowerAlnum(suffix[i]);
    var k := if limit >= SUFFIX_LENGTH + 1 then limit - SUFFIX_LENGTH - 1 else 0;
    assert normalized[..0] == [];
    FrontIsPart(normalized, k);
    var front := StripTrailing(normalized[..k]);
    if front != [] {
      JoinedParts(front, "-", suffix);
    }
  }

  /** Every bounded label of a positive limit is a valid label within it. */
  lemma BoundedIsLabel(value: string, limit: nat, stable: Option<string>, lib: Library)
    requires Lawful(lib) && limit >= 1
    ensures RoutePart(BoundedDnsLabel(value, limit, stable, lib))
    ensures |BoundedDnsLabel(value, limit, stable, lib)| <= limit
  {
    var normalized := NormalizeRoutePart(value, lib);
    NormalizedIsRoutePart(value, lib);
    if |normalized| > limit {
      var text := if stable.Some? then Trim(stable.value) else [];
      ShortenedShape(normalized, limit, if text != [] then text else normalized, lib);
    }
  }

  /** Bounding a bounded label changes nothing, whatever identity is passed the second time. */
  lemma BoundingIdempotent(value: string, limit: nat, stable: Option<string>, stable': Option<string>, lib: Library)
    requires Lawful(lib)
    ensures BoundedDnsLabel(BoundedDnsLabel(value, limit, stable, lib), limit, stable', lib)
         == BoundedDnsLabel(value, limit, stable, lib)
  {
    var bounded := BoundedDnsLabel(value, limit, stable, lib);
    if limit >= 1 {
      BoundedIsLabel(value, limit, stable, lib);
      NormalizeIdentity(bounded, lib);
    } else {
      NoRoomForLabel(value, stable, lib);
      NoRoomForLabel(bounded, stable', lib);
    }
  }

  lemma NoRoomForLabel(value: string, stable: Option<string>, lib: Library)
    ensures BoundedDnsLabel(value, 0, stable, lib) == []
  {
    NormalizedIsRoutePart(value, lib);
    EmptyLabel(NormalizeRoutePart(value, lib), lib);
  }

  lemma ShortenedEndsWithHash(normalized: string, limit: nat, identity: string, lib: Library)
    requires |normalized| > limit >= SUFFIX_LENGTH && |lib.hash(identity)| >= SUFFIX_LENGTH
    ensures var l := Shortened(normalized, limit, identity, lib);
            |l| >= SUFFIX_LENGTH && l[|l| - SUFFIX_LENGTH..] == lib.hash(identity)[..SUFFIX_LENGTH]
  {
  }

  /** Shortened labels are equal only when the hashes of the identities agree in their first twelve
      characters: cutting texts alike at the front does not make their labels collide. */
  lemma BoundingSeparates(a: string, b: string, limit: nat, stable: string, stable': string, lib: Library)
    requires Lawful(lib) && limit >= SUFFIX_LENGTH && Trim(stable) != [] && Trim(stable') != []
    requires |NormalizeRoutePart(a, lib)| > limit && |NormalizeRoutePart(b, lib)| > limit
    requires BoundedDnsLabel(a, limit, Some(stable), lib) == BoundedDnsLabel(b, limit, Some(stable'), lib)
    ensures lib.hash(Trim(stable))[..SUFFIX_LENGTH] == lib.hash(Trim(stable'))[..SUFFIX_LENGTH]
  {
    ShortenedEndsWithHash(NormalizeRoutePart(a, lib), limit, Trim(stable), lib);
    ShortenedEndsWithHash(NormalizeRoutePart(b, lib), limit, Trim(stable'), lib);
  }

  lemma EmptyLabel(normalized: string, lib: Library)
    requires normalized != []
    ensures forall identity :: Shortened(normalized, 0, identity, lib) == []
  {
  }

  // ---------------------------------------------------------------- zones survive bounding

  lemma JoinedParts(a: string, dashes: string, b: string)
    requires RoutePart(a) && RoutePart(b) && dashes in ["-", "--"]
    ensures RoutePart(a + dashes + b)
  {
    var r := a + dashes + b;
    assert forall i :: 0 <= i < |r| ==>
      if i < |a| then r[i] == a[i]
      else if i < |a| + |dashes| then r[i] == '-'
      else r[i] == b[i - |a| - |dashes|];
  }

  lemma TenantIdentityIsPart(organization: string, project: string, lib: Library)
    ensures RoutePart(TenantIdentity(organization, project, lib))
  {
    NormalizedIsRoutePart(organization, lib);
    NormalizedIsRoutePart(project, lib);
    JoinedParts(NormalizeRoutePart(organization, lib), "--", NormalizeRoutePart(project, lib));
  }

  lemma ServiceIdentityIsPart(organization: string, project: string, service: string, lib: Library)
    ensures RoutePart(ServiceIdentity(organization, project, service, lib))
  {
    TenantIdentityIsPart(organization, project, lib);
    NormalizedIsRoutePart(service, lib);
    JoinedParts(TenantIdentity(organization, project, lib), "--", NormalizeRoutePart(service, lib));
  }

  lemma {:induction false} StripTrailingKeeps(s: string, k: nat)
    requires k < |s| && s[k] != '-'
    ensures s[..k + 1] <= StripTrailing(s)
  {
    if s[|s| - 1] == '-' {
      StripTrailingKeeps(s[..|s| - 1], k);
      assert s[..|s| - 1][..k + 1] == s[..k + 1];
    }
  }

  lemma ShortenedKeepsFront(full: string, k: nat, limit: nat, identity: string, lib: Library)
    requires |full| > limit && k + SUFFIX_LENGTH + 1 < limit && full[k] != '-'
    requires |lib.hash(identity)| >= SUFFIX_LENGTH
    ensures full[..k] <= Shortened(full, limit, identity, lib)
  {
    var cut := full[..limit - SUFFIX_LENGTH - 1];
    assert cut[k] == full[k];
    StripTrailingKeeps(cut, k);
    assert cut[..k + 1] == full[..k + 1];
  }

  /** Truncation and hashing keep the zone prefix of a generated label. */
  lemma ZonedLabelKeepsPrefix(zone: string, identity: string, lib: Library)
    requires Lawful(lib) && RoutePart(zone) && |zone| <= 40 && RoutePart(identity)
    ensures var l := ZonedLabel(zone, identity, lib); zone + "--" <= l && RoutePart(l) && |l| <= MAX_LABEL
  {
    var full := zone + "--" + identity;
    JoinedParts(zone, "--", identity);
    NormalizeIdentity(full, lib);
    BoundedIsLabel(full, MAX_LABEL, None, lib);
    assert full[|zone| + 2] == identity[0] && full[..|zone| + 2] == zone + "--";
    if |full| > MAX_LABEL {
      SuffixShape(full, lib);
      ShortenedKeepsFront(full, |zone| + 2, MAX_LABEL, full, lib);
    }
  }

  // ---------------------------------------------------------------- nothing generated is rentable

  /** The rental configuration uses the reserved tables. */
  ghost predicate UsesTables(config: Config, configured: seq<string>) {
    forall n :: config.reserved(n) <==> ReservedName(n, configured)
  }

  /** The first label of a host decides: if it is reserved, the host is not rentable, whatever
      base domain it stands under and whatever the rental base domain is. */
  lemma ReservedFirstLabel(name: string, baseDomain: string, config: Config)
    requires forall i :: 0 <= i < |name| ==> IsLabelChar(name[i])
    requires config.reserved(name)
    ensures RentalHostname(name + "." + baseDomain, config) == None
  {
    var host := name + "." + baseDomain;
    var k := PortStart(host);
    assert forall i :: 0 <= i < |name| ==> host[i] == name[i];
    assert host[|name|] == '.';
    assert k > |name|;
    var l := Lower(host[..k]);
    assert l[..|name|] == name;
    assert l[|name|] == '.';
    if Rentable(StripDot(l), config) {
      FirstLabel(StripDot(l), name, config);
    }
  }

  lemma FirstLabel(hostname: string, name: string, config: Config)
    requires |name| <= |hostname| && hostname[..|name|] == name && '.' !in name
    requires |name| < |hostname| ==> hostname[|name|] == '.'
    requires Rentable(hostname, config)
    ensures RentableName(name, config)
  {
    var suffix := "." + config.baseDomain;
    var k := |hostname| - |suffix|;
    var first := hostname[..k];
    assert hostname[k] == suffix[0];
    assert forall i :: 0 <= i < k ==> hostname[i] == first[i] && IsLabelChar(first[i]);
    assert forall i :: 0 <= i < |name| ==> name[i] == hostname[i] && hostname[i] in name;
  }

  lemma ReservedZone(name: string, config: Config, configured: seq<string>, i: nat)
    requires UsesTables(config, configured) && i < |RESERVED_PREFIXES| && RESERVED_PREFIXES[i] <= name
    ensures config.reserved(name)
  {
  }

  lemma RouteIdentityIsPart(route: Route, lib: Library)
    ensures RoutePart(RouteIdentity(route, lib))
  {
    if route.Service? || route.Preview? {
      ServiceIdentityIsPart(route.organization, route.project, route.name, lib);
    } else if route.WorkspaceConsole? {
      NormalizedIsRoutePart(route.organization, lib);
    } else {
      TenantIdentityIsPart(route.organization, route.project, lib);
      if !route.ProjectConsole? {
        NormalizedIsRoutePart(route.name, lib);
        JoinedParts(TenantIdentity(route.organization, route.project, lib), "-", NormalizeRoutePart(route.name, lib));
      }
    }
  }

  lemma ThreeParts(a: string, b: string, c: string)
    requires RoutePart(a) && RoutePart(b) && RoutePart(c)
    ensures RoutePart(a + "--" + b + "--" + c)
  {
    JoinedParts(a, "--", b);
    JoinedParts(a + "--" + b, "--", c);
  }

  lemma PreviewLabelShape(preview: string, identity: string, lib: Library)
    requires Lawful(lib) && RoutePart(preview)
    ensures RoutePart(PreviewLabel(preview, identity, lib)) && PREVIEW + "--" <= PreviewLabel(preview, identity, lib)
    ensures |preview| <= 13 ==> |PreviewLabel(preview, identity, lib)| <= MAX_LABEL
  {
    BoundedIsLabel(identity, MAX_PREVIEW_IDENTITY, None, lib);
    PreviewParts(preview, BoundedDnsLabel(identity, MAX_PREVIEW_IDENTITY, None, lib));
  }

  lemma PreviewParts(preview: string, route: string)
    requires RoutePart(preview) && RoutePart(route)
    ensures var l := PREVIEW + "--" + preview + "--" + route; RoutePart(l) && PREVIEW + "--" <= l
  {
    ThreeParts(PREVIEW, preview, route);
  }

  /** Every generated label is a DNS label that begins with its zone. It fits 63 characters; a
      preview label does whenever its normalized preview key has at most 13, as `pr-` and ten digits. */
  lemma GeneratedLabelShape(route: Route, lib: Library)
    requires Lawful(lib)
    ensures var l := RouteLabel(route, lib); RoutePart(l) && Zone(route) + "--" <= l
    ensures (route.Preview? ==> |NormalizeRoutePart(route.preview, lib)| <= 13)
            ==> |RouteLabel(route, lib)| <= MAX_LABEL
  {
    RouteIdentityIsPart(route, lib);
    if route.Preview? {
      NormalizedIsRoutePart(route.preview, lib);
      PreviewLabelShape(NormalizeRoutePart(route.preview, lib), RouteIdentity(route, lib), lib);
    } else {
      ZoneIsPart(route);
      ZonedLabelKeepsPrefix(Zone(route), RouteIdentity(route, lib), lib);
    }
  }

  lemma ZoneIsPart(route: Route)
    ensures RoutePart(Zone(route)) && |Zone(route)| <= 40
  {
  }

  lemma ZoneIsReserved(route: Route)
    ensures exists i :: 0 <= i < |RESERVED_PREFIXES| && RESERVED_PREFIXES[i] == Zone(route) + "--"
  {
    assert RESERVED_PREFIXES[0] == "apps" + "--" && RESERVED_PREFIXES[1] == "preview" + "--";
    assert RESERVED_PREFIXES[2] == "console" + "--" && RESERVED_PREFIXES[3] == "resources" + "--";
  }

  lemma GeneratedLabelReserved(route: Route, lib: Library, config: Config, configured: seq<string>)
    requires Lawful(lib) && UsesTables(config, configured)
    ensures config.reserved(RouteLabel(route, lib))
  {
    GeneratedLabelShape(route, lib);
    ZoneIsReserved(route);
    var i :| 0 <= i < |RESERVED_PREFIXES| && RESERVED_PREFIXES[i] == Zone(route) + "--";
    ReservedZone(RouteLabel(route, lib), config, configured, i);
  }

  /** No generated host name is ever rentable, under any base domain and any rental configuration
      that uses the reserved tables. */
  lemma GeneratedNeverRentable(route: Route, baseDomain: string, lib: Library, config: Config, configured: seq<string>)
    requires Lawful(lib) && UsesTables(config, configured)
    ensures RentalHostname(RouteHostname(route, baseDomain, lib), config) == None
  {
    GeneratedLabelShape(route, lib);
    GeneratedLabelReserved(route, lib, config, configured);
    ReservedFirstLabel(RouteLabel(route, lib), baseDomain, config);
  }

  const PLATFORM_NAMES: seq<string> := ["app", "api", "admin", "logs", "metrics"]

  lemma PlatformIsPart(name: string)
    requires name in PLATFORM_NAMES
    ensures RoutePart(name)
  {
  }

  lemma PlatformIsReserved(name: string)
    requires name in PLATFORM_NAMES
    ensures name in RESERVED_NAMES
  {
    assert RESERVED_NAMES[1] == "app" && RESERVED_NAMES[2] == "api" && RESERVED_NAMES[3] == "admin";
    assert RESERVED_NAMES[15] == "logs" && RESERVED_NAMES[16] == "metrics";
  }

  /** The platform's own host names are reserved too. */
  lemma PlatformNeverRentable(baseDomain: string, config: Config, configured: seq<string>, name: string)
    requires UsesTables(config, configured)
    requires name in PLATFORM_NAMES
    ensures RentalHostname(name + "." + baseDomain, config) == None
  {
    PlatformIsPart(name);
    PlatformIsReserved(name);
    ListedIsReserved(name, config, configured);
    ReservedFirstLabel(name, baseDomain, config);
  }

  lemma ListedIsReserved(name: string, config: Config, configured: seq<string>)
    requires UsesTables(config, configured) && name in RESERVED_NAMES
    ensures config.reserved(name)
  {
  }

  // ---------------------------------------------------------------- labels that do not collide

  /** The part of a hash that goes into a label. */
  function HashPrefix(identity: string, lib: Library): string {
    var hash := lib.hash(identity);
    if |hash| <= SUFFIX_LENGTH then hash else hash[..SUFFIX_LENGTH]
  }

  /** The hash tells two texts apart where bounding makes it matter: two long texts differ in their
      prefix, and a short text does not happen to end in the prefix of a long one. */
  predicate Separated(a: string, b: string, limit: nat, lib: Library) {
    a != b ==>
      && (|a| > limit && |b| > limit ==> HashPrefix(a, lib) != HashPrefix(b, lib))
      && (|a| > limit >= |b| ==> !EndsWith(b, HashPrefix(a, lib)))
      && (|b| > limit >= |a| ==> !EndsWith(a, HashPrefix(b, lib)))
  }

  lemma LongLabel(text: string, limit: nat, lib: Library)
    requires Lawful(lib) && RoutePart(text) && |text| > limit >= SUFFIX_LENGTH
    ensures EndsWith(BoundedDnsLabel(text, limit, None, lib), HashPrefix(text, lib))
    ensures |HashPrefix(text, lib)| == SUFFIX_LENGTH
  {
    NormalizeIdentity(text, lib);
    SuffixShape(text, lib);
    ShortenedEndsWithHash(text, limit, text, lib);
  }

  /** Bounded labels of separated texts are equal only for equal texts. */
  lemma BoundedAgreeIff(a: string, b: string, limit: nat, lib: Library)
    requires Lawful(lib) && RoutePart(a) && RoutePart(b) && limit >= SUFFIX_LENGTH
    requires Separated(a, b, limit, lib)
    ensures BoundedDnsLabel(a, limit, None, lib) == BoundedDnsLabel(b, limit, None, lib) <==> a == b
  {
    NormalizeIdentity(a, lib);
    NormalizeIdentity(b, lib);
    if |a| > limit {
      LongLabel(a, limit, lib);
    }
    if |b| > limit {
      LongLabel(b, limit, lib);
    }
  }

  predicate NoDoubleHyphen(s: string) {
    forall i :: 0 <= i < |s| - 1 ==> s[i] != '-' || s[i + 1] != '-'
  }

  /** A route part without two hyphens in a row. */
  predicate Plain(s: string) {
    RoutePart(s) && NoDoubleHyphen(s)
  }

  function SkipPunctuation(s: string): (r: string)
    ensures |r| <= |s| && (s != [] && !IsLowerAlnum(s[0]) ==> |r| < |s|)
    ensures r != [] ==> IsLowerAlnum(r[0])
  {
    if s != [] && !IsLowerAlnum(s[0]) then SkipPunctuation(s[1..]) else s
  }

  function SlugText(s: string): string
    decreases |s|
  {
    if s == [] then []
    else if IsLowerAlnum(s[0]) then [s[0]] + SlugText(s[1..])
    else ['-'] + SlugText(SkipPunctuation(s))
  }

  function SlugOr(value: string, otherwise: string, lib: Library): string {
    FirstText(Sorting.Take(StripTrailing(StripLeading(SlugText(lib.lower(Trim(value))))), MAX_LABEL), otherwise)
  }

  /** How organizations, projects and services get their slugs. */
  function Slugify(value: string, lib: Library): string {
    SlugOr(value, "item", lib)
  }

  /** The parts of a stable id, each a slug, with hyphens between them. */
  function JoinSlugs(parts: seq<string>, lib: Library): string {
    if parts == [] then []
    else SlugOr(parts[0], "x", lib) + if |parts| == 1 then [] else "-" + JoinSlugs(parts[1..], lib)
  }

  function StableId(prefix: string, parts: seq<string>, lib: Library): string {
    SlugOr(prefix + "-" + JoinSlugs(parts, lib), prefix, lib)
  }

  lemma {:induction false} SlugTextShape(s: string)
    ensures var r := SlugText(s);
      && NoDoubleHyphen(r) && (forall i :: 0 <= i < |r| ==> IsLabelChar(r[i]))
      && (s != [] && IsLowerAlnum(s[0]) ==> r != [] && r[0] == s[0])
    decreases |s|
  {
    if s != [] {
      SlugTextShape(if IsLowerAlnum(s[0]) then s[1..] else SkipPunctuation(s));
    }
  }

  /** A slug holds no underscore, as long as what stands in for an empty one holds none. */
  lemma SlugHasNoUnderscore(value: string, otherwise: string, lib: Library)
    requires '_' !in otherwise
    ensures '_' !in SlugOr(value, otherwise, lib)
  {
    var text := SlugText(lib.lower(Trim(value)));
    SlugTextShape(lib.lower(Trim(value)));
    StripLeadingChars(text);
    StripTrailingPrefix(StripLeading(text));
  }

  predicate LabelText(s: string) {
    forall i :: 0 <= i < |s| ==> IsLabelChar(s[i])
  }

  predicate HasAlnum(s: string) {
    exists i :: 0 <= i < |s| && IsLowerAlnum(s[i])
  }

  /** A slug is label text without doubled hyphens that begins with a letter or digit. */
  lemma SlugShape(value: string, otherwise: string, lib: Library)
    requires LabelText(otherwise) && NoDoubleHyphen(otherwise) && otherwise != [] && IsLowerAlnum(otherwise[0])
    ensures var r := SlugOr(value, otherwise, lib);
      LabelText(r) && NoDoubleHyphen(r) && r != [] && IsLowerAlnum(r[0])
  {
    var text := SlugText(lib.lower(Trim(value)));
    SlugTextShape(lib.lower(Trim(value)));
    StrippedPlain(text);
  }

  lemma {:induction false} SkipKeepsAlnum(s: string)
    requires HasAlnum(s)
    ensures HasAlnum(SkipPunctuation(s))
  {
    if !IsLowerAlnum(s[0]) {
      var i :| 0 <= i < |s| && IsLowerAlnum(s[i]);
      assert s[1..][i - 1] == s[i];
      SkipKeepsAlnum(s[1..]);
    }
  }

  lemma {:induction false} SlugKeepsAlnum(s: string)
    requires HasAlnum(s)
    ensures HasAlnum(SlugText(s))
    decreases |s|
  {
    if IsLowerAlnum(s[0]) {
      assert IsLowerAlnum(SlugText(s)[0]);
    } else {
      SkipKeepsAlnum(s);
      var rest := SlugText(SkipPunctuation(s));
      SlugKeepsAlnum(SkipPunctuation(s));
      var i :| 0 <= i < |rest| && IsLowerAlnum(rest[i]);
      assert SlugText(s)[i + 1] == rest[i];
    }
  }

  /** What is a slug already stays in front, and a letter or digit stays behind it. */
  lemma {:induction false} SlugFront(x: string, y: string) returns (k: nat)
    requires LabelText(x) && NoDoubleHyphen(x) && HasAlnum(y)
    ensures x <= SlugText(x + y) && |x| <= k < |SlugText(x + y)| && IsLowerAlnum(SlugText(x + y)[k])
    decreases |x|
  {
    var s := x + y;
    if x == [] {
      assert s == y;
      SlugKeepsAlnum(y);
      k :| 0 <= k < |SlugText(y)| && IsLowerAlnum(SlugText(y)[k]);
    } else if |x| == 1 && x[0] == '-' {
      assert s[1..] == y;
      SkipKeepsAlnum(y);
      var rest := SlugText(SkipPunctuation(y));
      SlugKeepsAlnum(SkipPunctuation(y));
      var i :| 0 <= i < |rest| && IsLowerAlnum(rest[i]);
      k := i + 1;
    } else {
      assert s[1..] == x[1..] + y;
      assert x[0] == '-' ==> SkipPunctuation(s) == s[1..];
      k := SlugFront(x[1..], y);
      k := k + 1;
    }
  }

  lemma JoinTwo(a: string, b: string, lib: Library)
    ensures JoinSlugs([a, b], lib) == SlugOr(a, "x", lib) + "-" + SlugOr(b, "x", lib)
  {
    assert [a, b][1..] == [b];
    assert JoinSlugs([b], lib) == SlugOr(b, "x", lib);
  }

  /** A slug of more than 63 characters is cut there. */
  lemma LongSlugCut(x: string, y: string, otherwise: string, lib: Library)
    requires Lawful(lib) && LabelText(x) && NoDoubleHyphen(x) && LabelText(y) && HasAlnum(y)
    requires |x| == MAX_LABEL && IsLowerAlnum(x[0])
    ensures SlugOr(x + y, otherwise, lib) == x
  {
    var s := x + y;
    assert LabelText(s);
    TrimIdentity(s);
    var k := SlugFront(x, y);
    var text := SlugText(s);
    assert StripLeading(text) == text;
    StripTrailingKeeps(text, k);
    StripTrailingPrefix(text);
  }

  lemma {:induction false} StripLeadingPlain(s: string)
    requires NoDoubleHyphen(s)
    ensures NoDoubleHyphen(StripLeading(s))
  {
    if s != [] && s[0] == '-' {
      StripLeadingPlain(s[1..]);
    }
  }

  lemma StrippedPlain(s: string)
    requires NoDoubleHyphen(s) && forall i :: 0 <= i < |s| ==> IsLabelChar(s[i])
    ensures var r := StripTrailing(StripLeading(s));
      NoDoubleHyphen(r) && (forall i :: 0 <= i < |r| ==> IsLabelChar(r[i])) && (r != [] ==> Plain(r))
  {
    StripLeadingPlain(s);
    StripLeadingChars(s);
    StripTrailingPrefix(StripLeading(s));
  }

  /** Every slug normalizes to a plain part. */
  lemma SlugsArePlain(value: string, lib: Library)
    requires Lawful(lib)
    ensures Plain(NormalizeRoutePart(Slugify(value, lib), lib))
  {
    var text := SlugText(lib.lower(Trim(value)));
    SlugTextShape(lib.lower(Trim(value)));
    StrippedPlain(text);
    LabelTextPlain(Slugify(value, lib), lib);
  }

  lemma LabelTextPlain(s: string, lib: Library)
    requires Lawful(lib) && NoDoubleHyphen(s) && forall i :: 0 <= i < |s| ==> IsLabelChar(s[i])
    ensures Plain(NormalizeRoutePart(s, lib))
  {
    TrimIdentity(s);
    SquashIdentity(s);
    StrippedPlain(s);
  }

  lemma Cancel(front: string, a: string, b: string, back: string)
    ensures front + a + back == front + b + back <==> a == b
  {
    var x, y := front + a + back, front + b + back;
    if x == y {
      assert |a| == |b|;
      assert a == x[|front|..|front| + |a|];
      assert b == y[|front|..|front| + |b|];
    }
  }

  /** Two hyphens in a row do not begin inside a plain part. */
  lemma DoubleBehind(b: string, y: string, k: nat)
    requires Plain(b) && k + 1 < |b + "--" + y|
    requires (b + "--" + y)[k] == '-' && (b + "--" + y)[k + 1] == '-'
    ensures k >= |b|
  {
    var s := b + "--" + y;
    assert forall i :: 0 <= i < |b| ==> s[i] == b[i];
  }

  /** The first double hyphen ends a plain part. */
  lemma FirstPart(a: string, x: string, b: string, y: string)
    requires Plain(a) && Plain(b) && a + "--" + x == b + "--" + y
    ensures a == b && x == y
  {
    var s := a + "--" + x;
    assert s[|a|] == '-' && s[|a| + 1] == '-' && s[|b|] == '-' && s[|b| + 1] == '-';
    DoubleBehind(b, y, |a|);
    DoubleBehind(a, x, |b|);
    assert a == s[..|a|] && b == s[..|b|];
    assert x == s[|a| + 2..] && y == s[|b| + 2..];
  }

  lemma NoFirstPart(a: string, b: string, y: string)
    requires Plain(a) && Plain(b)
    ensures a != b + "--" + y
  {
    var s := b + "--" + y;
    assert s[|b|] == '-' && s[|b| + 1] == '-';
  }

  /** What stands behind the organization in a route's identity, if anything. */
  function Rest(route: Route, lib: Library): Option<string> {
    match route
    case Service(_, p, n) => Some(ServiceRest(p, n, lib))
    case Preview(_, p, n, _) => Some(ServiceRest(p, n, lib))
    case ServiceConsole(_, p, n) => Some(NormalizeRoutePart(p, lib) + "-" + NormalizeRoutePart(n, lib))
    case ResourceConsole(_, p, n) => Some(NormalizeRoutePart(p, lib) + "-" + NormalizeRoutePart(n, lib))
    case ProjectConsole(_, p) => Some(NormalizeRoutePart(p, lib))
    case WorkspaceConsole(_) => None
  }

  function ServiceRest(project: string, name: string, lib: Library): string {
    var p, n := NormalizeRoutePart(project, lib), NormalizeRoutePart(name, lib);
    if n == MAIN then p else p + "--" + n
  }

  lemma IdentityParts(route: Route, lib: Library)
    ensures var o := NormalizeRoutePart(route.organization, lib);
      RouteIdentity(route, lib) == if Rest(route, lib).Some? then o + "--" + Rest(route, lib).value else o
  {
  }

  lemma IdentitiesAgreeIff(a: Route, b: Route, lib: Library)
    requires Plain(NormalizeRoutePart(a.organization, lib)) && Plain(NormalizeRoutePart(b.organization, lib))
    ensures RouteIdentity(a, lib) == RouteIdentity(b, lib)
       <==> NormalizeRoutePart(a.organization, lib) == NormalizeRoutePart(b.organization, lib)
            && Rest(a, lib) == Rest(b, lib)
  {
    IdentityParts(a, lib);
    IdentityParts(b, lib);
    var o, o' := NormalizeRoutePart(a.organization, lib), NormalizeRoutePart(b.organization, lib);
    match (Rest(a, lib), Rest(b, lib))
    case (Some(x), Some(y)) => if o + "--" + x == o' + "--" + y { FirstPart(o, x, o', y); }
    case (Some(x), None) => NoFirstPart(o', o, x);
    case (None, Some(y)) => NoFirstPart(o, o', y);
    case (None, None) =>
  }

  lemma ServiceRestsAgreeIff(p: string, n: string, p': string, n': string, lib: Library)
    requires Plain(NormalizeRoutePart(p, lib)) && Plain(NormalizeRoutePart(p', lib))
    ensures ServiceRest(p, n, lib) == ServiceRest(p', n', lib)
       <==> NormalizeRoutePart(p, lib) == NormalizeRoutePart(p', lib)
            && NormalizeRoutePart(n, lib) == NormalizeRoutePart(n', lib)
  {
    var P, N := NormalizeRoutePart(p, lib), NormalizeRoutePart(n, lib);
    var P', N' := NormalizeRoutePart(p', lib), NormalizeRoutePart(n', lib);
    if N != MAIN && N' != MAIN {
      if P + "--" + N == P' + "--" + N' { FirstPart(P, N, P', N'); }
    } else if N != MAIN {
      NoFirstPart(P', P, N);
    } else if N' != MAIN {
      NoFirstPart(P, P', N');
    }
  }

  /** What the hash has to tell apart for two routes of the same zone. */
  predicate SeparatedRoutes(a: Route, b: Route, lib: Library) {
    if a.Preview? && b.Preview? then
      Separated(RouteIdentity(a, lib), RouteIdentity(b, lib), MAX_PREVIEW_IDENTITY, lib)
    else if !a.Preview? && !b.Preview? then
      Separated(Zone(a) + "--" + RouteIdentity(a, lib), Zone(b) + "--" + RouteIdentity(b, lib), MAX_LABEL, lib)
    else true
  }

  /** Organizations, the projects of services and preview keys are plain. */
  predicate PlainRoute(route: Route, lib: Library) {
    && Plain(NormalizeRoutePart(route.organization, lib))
    && (route.Service? || route.Preview? ==> Plain(NormalizeRoutePart(route.project, lib)))
    && (route.Preview? ==> Plain(NormalizeRoutePart(route.preview, lib)))
  }

  /** The same place: within a zone, services and previews agree in every normalized part, consoles
      in the organization and in the project and name joined by a hyphen. */
  predicate SamePlace(a: Route, b: Route, lib: Library) {
    && Zone(a) == Zone(b)
    && NormalizeRoutePart(a.organization, lib) == NormalizeRoutePart(b.organization, lib)
    && (if (a.Service? && b.Service?) || (a.Preview? && b.Preview?) then
          && NormalizeRoutePart(a.project, lib) == NormalizeRoutePart(b.project, lib)
          && NormalizeRoutePart(a.name, lib) == NormalizeRoutePart(b.name, lib)
          && (a.Preview? ==> NormalizeRoutePart(a.preview, lib) == NormalizeRoutePart(b.preview, lib))
        else
          Rest(a, lib) == Rest(b, lib))
  }

  lemma ZonesApart(a: Route, b: Route, x: string, y: string)
    requires Zone(a) + "--" <= x && Zone(b) + "--" <= y && Zone(a) != Zone(b)
    ensures x != y
  {
    assert x[0] == Zone(a)[0] && y[0] == Zone(b)[0];
  }

  lemma ZonedLabelsAgreeIff(a: Route, b: Route, lib: Library)
    requires Lawful(lib) && !a.Preview? && !b.Preview? && SeparatedRoutes(a, b, lib) && Zone(a) == Zone(b)
    ensures RouteLabel(a, lib) == RouteLabel(b, lib) <==> RouteIdentity(a, lib) == RouteIdentity(b, lib)
  {
    ZoneIsPart(a);
    RouteIdentityIsPart(a, lib);
    RouteIdentityIsPart(b, lib);
    ZonedAgreeIff(Zone(a), RouteIdentity(a, lib), RouteIdentity(b, lib), lib);
  }

  lemma ZonedAgreeIff(zone: string, x: string, y: string, lib: Library)
    requires Lawful(lib) && RoutePart(zone) && RoutePart(x) && RoutePart(y)
    requires Separated(zone + "--" + x, zone + "--" + y, MAX_LABEL, lib)
    ensures ZonedLabel(zone, x, lib) == ZonedLabel(zone, y, lib) <==> x == y
  {
    JoinedParts(zone, "--", x);
    JoinedParts(zone, "--", y);
    BoundedAgreeIff(zone + "--" + x, zone + "--" + y, MAX_LABEL, lib);
    CancelFront(zone + "--", x, y);
  }

  lemma CancelFront(front: string, x: string, y: string)
    ensures front + x == front + y <==> x == y
  {
    Cancel(front, x, y, []);
    assert front + x + [] == front + x && front + y + [] == front + y;
  }

  lemma PreviewLabelsAgreeIff(a: Route, b: Route, lib: Library)
    requires Lawful(lib) && a.Preview? && b.Preview? && SeparatedRoutes(a, b, lib)
    requires PlainRoute(a, lib) && PlainRoute(b, lib)
    ensures RouteLabel(a, lib) == RouteLabel(b, lib)
       <==> NormalizeRoutePart(a.preview, lib) == NormalizeRoutePart(b.preview, lib)
            && RouteIdentity(a, lib) == RouteIdentity(b, lib)
  {
    RouteIdentityIsPart(a, lib);
    RouteIdentityIsPart(b, lib);
    var x := BoundedDnsLabel(RouteIdentity(a, lib), MAX_PREVIEW_IDENTITY, None, lib);
    var y := BoundedDnsLabel(RouteIdentity(b, lib), MAX_PREVIEW_IDENTITY, None, lib);
    BoundedAgreeIff(RouteIdentity(a, lib), RouteIdentity(b, lib), MAX_PREVIEW_IDENTITY, lib);
    KeyedLabels(NormalizeRoutePart(a.preview, lib), x, NormalizeRoutePart(b.preview, lib), y);
  }

  lemma KeyedLabels(key: string, x: string, key': string, y: string)
    requires Plain(key) && Plain(key')
    ensures PREVIEW + "--" + key + "--" + x == PREVIEW + "--" + key' + "--" + y <==> key == key' && x == y
  {
    var front := PREVIEW + "--";
    assert front + key + "--" + x == front + (key + "--" + x) + [];
    assert front + key' + "--" + y == front + (key' + "--" + y) + [];
    Cancel(front, key + "--" + x, key' + "--" + y, []);
    if key + "--" + x == key' + "--" + y {
      FirstPart(key, x, key', y);
    }
  }

  lemma LabelsAgreeIff(a: Route, b: Route, lib: Library)
    requires Lawful(lib) && PlainRoute(a, lib) && PlainRoute(b, lib) && SeparatedRoutes(a, b, lib)
    ensures RouteLabel(a, lib) == RouteLabel(b, lib) <==> SamePlace(a, b, lib)
  {
    if Zone(a) != Zone(b) {
      GeneratedLabelShape(a, lib);
      GeneratedLabelShape(b, lib);
      ZonesApart(a, b, RouteLabel(a, lib), RouteLabel(b, lib));
    } else {
      IdentitiesAgreeIff(a, b, lib);
      SameZoneKinds(a, b);
      if a.Preview? {
        PreviewLabelsAgreeIff(a, b, lib);
        ServiceRestsAgreeIff(a.project, a.name, b.project, b.name, lib);
      } else {
        ZonedLabelsAgreeIff(a, b, lib);
        if a.Service? {
          ServiceRestsAgreeIff(a.project, a.name, b.project, b.name, lib);
        }
      }
    }
  }

  lemma SameZoneKinds(a: Route, b: Route)
    requires Zone(a) == Zone(b)
    ensures a.Preview? <==> b.Preview?
    ensures a.Service? <==> b.Service?
  {
    assert "apps" != PREVIEW && "apps" != "resources" && "apps" != "console";
    assert PREVIEW != "resources" && PREVIEW != "console";
  }

  /** Two generated host names under one base domain are equal exactly when the routes name the same
      place. For services and previews that is every normalized part, so no tenant takes over
      another's host name. Consoles join project and name by one hyphen, so there the condition is
      weaker than equal parts. */
  lemma HostsAgreeIff(a: Route, b: Route, baseDomain: string, lib: Library)
    requires Lawful(lib) && PlainRoute(a, lib) && PlainRoute(b, lib) && SeparatedRoutes(a, b, lib)
    ensures RouteHostname(a, baseDomain, lib) == RouteHostname(b, baseDomain, lib) <==> SamePlace(a, b, lib)
  {
    LabelsAgreeIff(a, b, lib);
    SameBase(RouteLabel(a, lib), RouteLabel(b, lib), baseDomain);
  }

  lemma SameBase(x: string, y: string, baseDomain: string)
    ensures x + "." + baseDomain == y + "." + baseDomain <==> x == y
  {
    Cancel([], x, y, "." + baseDomain);
    assert x + "." + baseDomain == [] + x + ("." + baseDomain) && y + "." + baseDomain == [] + y + ("." + baseDomain);
  }

  /** The console of a service and the console of a project named after both share a host name, for
      all names. */
  lemma ConsolesCollide(organization: string, project: string, name: string, both: string, baseDomain: string,
                        lib: Library)
    requires Lawful(lib) && both == NormalizeRoutePart(project, lib) + "-" + NormalizeRoutePart(name, lib)
    ensures RouteHostname(ServiceConsole(organization, project, name), baseDomain, lib)
         == RouteHostname(ProjectConsole(organization, both), baseDomain, lib)
  {
    JoinedIsNormal(project, "-", name, lib);
    IdentityParts(ServiceConsole(organization, project, name), lib);
    IdentityParts(ProjectConsole(organization, both), lib);
  }

  lemma JoinedIsNormal(a: string, dashes: string, b: string, lib: Library)
    requires Lawful(lib) && dashes in ["-", "--"]
    ensures var joined := NormalizeRoutePart(a, lib) + dashes + NormalizeRoutePart(b, lib);
      NormalizeRoutePart(joined, lib) == joined
  {
    NormalizedIsRoutePart(a, lib);
    NormalizedIsRoutePart(b, lib);
    JoinedParts(NormalizeRoutePart(a, lib), dashes, NormalizeRoutePart(b, lib));
    NormalizeIdentity(NormalizeRoutePart(a, lib) + dashes + NormalizeRoutePart(b, lib), lib);
  }

  lemma MainIsNormal(lib: Library)
    requires Lawful(lib)
    ensures NormalizeRoutePart(MAIN, lib) == MAIN
  {
    assert RoutePart(MAIN);
    NormalizeIdentity(MAIN, lib);
  }

  /** Without plain parts services collide too: the main service of a project named after another
      project and a service of it. */
  lemma DoubledHyphensCollide(organization: string, project: string, name: string, both: string, baseDomain: string,
                              lib: Library)
    requires Lawful(lib) && both == NormalizeRoutePart(project, lib) + "--" + NormalizeRoutePart(name, lib)
    requires NormalizeRoutePart(name, lib) != MAIN
    ensures RouteHostname(Service(organization, project, name), baseDomain, lib)
         == RouteHostname(Service(organization, both, MAIN), baseDomain, lib)
  {
    DoubledIdentity(organization, project, name, both, lib);
  }

  lemma DoubledIdentity(organization: string, project: string, name: string, both: string, lib: Library)
    requires Lawful(lib) && both == NormalizeRoutePart(project, lib) + "--" + NormalizeRoutePart(name, lib)
    requires NormalizeRoutePart(name, lib) != MAIN
    ensures RouteIdentity(Service(organization, project, name), lib)
         == RouteIdentity(Service(organization, both, MAIN), lib)
  {
    JoinedIsNormal(project, "--", name, lib);
    MainIsNormal(lib);
    IdentityParts(Service(organization, project, name), lib);
    IdentityParts(Service(organization, both, MAIN), lib);
  }

  // ---------------------------------------------------------------- preview patterns and runtime host names

  const TEN_DIGITS := 10_000_000_000

  /** A stored organization, project or service as far as routing reads it; absent fields are empty. */
  datatype Named = Named(slug: string, name: string, id: string)

  function PlannedName(record: Named, otherwise: string): string {
    FirstText(record.slug, FirstText(record.name, otherwise))
  }

  function DeployedName(record: Named, id: string, otherwise: string): string {
    FirstText(record.slug, FirstText(record.name, FirstText(id, otherwise)))
  }

  /** The identity a preview pattern is planned with: the service by its name. */
  function PlannedIdentity(organization: Named, project: Named, service: Named, publicService: bool, lib: Library)
    : string
  {
    PatternIdentity(PlannedName(organization, "org"), PlannedName(project, "project"), service.name, publicService, lib)
  }

  /** The identity a preview is deployed under: the service by its slug, and ids where nothing else
      is handed over; `organizationId` is the organization's slug or id on the project record. */
  function DeployedIdentity(organization: Named, project: Named, service: Named, organizationId: string, lib: Library)
    : string
  {
    ServiceIdentity(DeployedName(organization, organizationId, "org"), DeployedName(project, project.id, "project"),
                    DeployedName(service, service.id, "service"), lib)
  }

  function PreviewKey(pullRequest: int): string {
    PR + if pullRequest > 0 then Decimal(pullRequest) else "0"
  }

  const DEFAULT_DOMAIN := "raibitserver.app"

  /** The base domains a deployment may read, of the request, the service and the project; an absent
      one is empty. */
  datatype BaseDomains = BaseDomains(request: string, service: string, project: string)

  /** A plan reads one base domain, the one of the whole specification. */
  function PlannedBase(specified: string): string {
    FirstText(specified, DEFAULT_DOMAIN)
  }

  function DeployedBase(bases: BaseDomains): string {
    FirstText(bases.request, FirstText(bases.service, FirstText(bases.project, DEFAULT_DOMAIN)))
  }

  /** The host name a preview of pull request `n` gets when it is deployed. */
  function RuntimeHostname(organization: Named, project: Named, service: Named, organizationId: string,
                           pullRequest: int, bases: BaseDomains, lib: Library): string
  {
    ServiceHostname(DeployedName(organization, organizationId, "org"), DeployedName(project, project.id, "project"),
                    DeployedName(service, service.id, "service"), DeployedBase(bases), "", PreviewKey(pullRequest), lib)
  }

  /** The first occurrence of `pattern` replaced. */
  function ReplaceFirst(s: string, pattern: string, text: string): string {
    if pattern <= s then text + s[|pattern|..]
    else if s == [] then []
    else [s[0]] + ReplaceFirst(s[1..], pattern, text)
  }

  lemma {:induction false} ReplaceAfter(front: string, rest: string, text: string)
    requires '{' !in front
    ensures ReplaceFirst(front + NUMBER + rest, NUMBER, text) == front + text + rest
  {
    var s := front + NUMBER + rest;
    if front == [] {
      assert s == NUMBER + rest;
      assert s[|NUMBER|..] == rest;
    } else {
      assert s[0] == front[0] && NUMBER[0] == '{';
      assert s[1..] == front[1..] + NUMBER + rest;
      ReplaceAfter(front[1..], rest, text);
      assert front + text + rest == [front[0]] + (front[1..] + text + rest);
    }
  }

  lemma {:induction false} DecimalLength(n: nat, k: nat, bound: nat)
    requires n < bound && bound == Power10(k) && k >= 1
    ensures |Decimal(n)| <= k
    decreases k
  {
    if n >= 10 {
      assert k >= 2;
      DecimalLength(n / 10, k - 1, Power10(k - 1));
    }
  }

  function Power10(k: nat): nat {
    if k == 0 then 1 else 10 * Power10(k - 1)
  }

  lemma PowerOfTen()
    ensures Power10(10) == TEN_DIGITS
  {
    assert Power10(4) == 10_000;
    assert Power10(8) == 100_000_000;
  }

  lemma PreviewKeyShape(n: nat)
    requires 0 < n < TEN_DIGITS
    ensures RoutePart(PreviewKey(n)) && |PreviewKey(n)| <= 13
  {
    PowerOfTen();
    DecimalLength(n, 10, Power10(10));
    var key, digits := PreviewKey(n), Decimal(n);
    assert forall i :: 0 <= i < |key| ==> if i < 3 then key[i] == PR[i] else key[i] == digits[i - 3];
  }

  lemma PatternFilled(digits: string, route: string, baseDomain: string)
    ensures ReplaceFirst(PREVIEW + "--" + PR + NUMBER + "--" + route + "." + baseDomain, NUMBER, digits)
         == PREVIEW + "--" + (PR + digits) + "--" + route + "." + baseDomain
  {
    var front, tail := PREVIEW + "--" + PR, "--" + route + "." + baseDomain;
    ReplaceAfter(front, tail, digits);
    Regroup(front + NUMBER, "--", route, ".", baseDomain);
    Regroup(front + digits, "--", route, ".", baseDomain);
    assert front + digits == PREVIEW + "--" + (PR + digits);
  }

  /** The published pattern with the number filled in. */
  function FilledPattern(organization: Named, project: Named, service: Named, publicService: bool,
                         n: nat, specified: string, lib: Library): string
  {
    ReplaceFirst(PreviewPattern(PlannedName(organization, "org"), PlannedName(project, "project"),
                                service.name, publicService, PlannedBase(specified), lib), NUMBER, Decimal(n))
  }

  lemma FilledPatternLabel(organization: Named, project: Named, service: Named, publicService: bool,
                           n: nat, specified: string, lib: Library)
    requires n > 0
    ensures FilledPattern(organization, project, service, publicService, n, specified, lib)
         == PreviewLabel(PreviewKey(n), PlannedIdentity(organization, project, service, publicService, lib), lib)
            + "." + PlannedBase(specified)
  {
    var identity := PlannedIdentity(organization, project, service, publicService, lib);
    PatternFilled(Decimal(n), BoundedDnsLabel(identity, MAX_PREVIEW_IDENTITY, None, lib), PlannedBase(specified));
  }

  lemma RuntimeLabel(organization: Named, project: Named, service: Named, organizationId: string,
                     n: nat, bases: BaseDomains, lib: Library)
    requires Lawful(lib) && 0 < n < TEN_DIGITS
    ensures var identity := DeployedIdentity(organization, project, service, organizationId, lib);
            var l := PreviewLabel(PreviewKey(n), identity, lib);
      && RuntimeHostname(organization, project, service, organizationId, n, bases, lib) == l + "." + DeployedBase(bases)
      && RoutePart(l) && |l| <= MAX_LABEL
  {
    PreviewKeyShape(n);
    NormalizeIdentity(PreviewKey(n), lib);
    PreviewLabelShape(PreviewKey(n), DeployedIdentity(organization, project, service, organizationId, lib), lib);
  }

  lemma PreviewIdentitiesAgreeIff(key: string, a: string, b: string, lib: Library)
    requires Lawful(lib) && RoutePart(a) && RoutePart(b) && Separated(a, b, MAX_PREVIEW_IDENTITY, lib)
    ensures PreviewLabel(key, a, lib) == PreviewLabel(key, b, lib) <==> a == b
  {
    BoundedAgreeIff(a, b, MAX_PREVIEW_IDENTITY, lib);
    CancelFront(PREVIEW + "--" + key + "--", BoundedDnsLabel(a, MAX_PREVIEW_IDENTITY, None, lib),
                BoundedDnsLabel(b, MAX_PREVIEW_IDENTITY, None, lib));
  }

  lemma PreviewLabelHasNoDot(n: nat, identity: string, lib: Library)
    requires Lawful(lib) && 0 < n < TEN_DIGITS
    ensures '.' !in PreviewLabel(PreviewKey(n), identity, lib)
  {
    PreviewKeyShape(n);
    PreviewLabelShape(PreviewKey(n), identity, lib);
  }

  /** The first dot of a host name ends its label. */
  lemma FirstDotSplits(x: string, y: string, p: string, q: string)
    requires '.' !in x && '.' !in y
    ensures x + "." + p == y + "." + q <==> x == y && p == q
  {
    var s, t := x + "." + p, y + "." + q;
    if s == t {
      assert s[|x|] == '.' && t[|y|] == '.';
      assert s[..|x|] == x && t[..|y|] == y;
      assert s[|x| + 1..] == p && t[|y| + 1..] == q;
    }
  }

  /** Where the planned and the deployed identity are one and so are the base domains, the published
      pattern with the number filled in is the host name of the preview, for every pull request of up
      to ten digits. */
  lemma PatternMeetsRuntime(organization: Named, project: Named, service: Named, publicService: bool,
                            organization': Named, project': Named, service': Named, organizationId: string,
                            n: nat, specified: string, bases: BaseDomains, lib: Library)
    requires Lawful(lib) && 0 < n < TEN_DIGITS && PlannedBase(specified) == DeployedBase(bases)
    requires PlannedIdentity(organization, project, service, publicService, lib)
          == DeployedIdentity(organization', project', service', organizationId, lib)
    ensures FilledPattern(organization, project, service, publicService, n, specified, lib)
         == RuntimeHostname(organization', project', service', organizationId, n, bases, lib)
  {
    FilledPatternLabel(organization, project, service, publicService, n, specified, lib);
    RuntimeLabel(organization', project', service', organizationId, n, bases, lib);
  }

  /** And only there, unless the hash fails to tell the identities apart. The records and the base
      domains handed to the two sides are independent: the runtime may be given ids only. */
  lemma PatternMeetsRuntimeIff(organization: Named, project: Named, service: Named, publicService: bool,
                               organization': Named, project': Named, service': Named, organizationId: string,
                               n: nat, specified: string, bases: BaseDomains, lib: Library)
    requires Lawful(lib) && 0 < n < TEN_DIGITS
    requires Separated(PlannedIdentity(organization, project, service, publicService, lib),
                       DeployedIdentity(organization', project', service', organizationId, lib),
                       MAX_PREVIEW_IDENTITY, lib)
    ensures FilledPattern(organization, project, service, publicService, n, specified, lib)
         == RuntimeHostname(organization', project', service', organizationId, n, bases, lib)
       <==> (&& PlannedIdentity(organization, project, service, publicService, lib)
                == DeployedIdentity(organization', project', service', organizationId, lib)
             && PlannedBase(specified) == DeployedBase(bases))
  {
    var a := PlannedIdentity(organization, project, service, publicService, lib);
    var b := DeployedIdentity(organization', project', service', organizationId, lib);
    var key := PreviewKey(n);
    FilledPatternLabel(organization, project, service, publicService, n, specified, lib);
    RuntimeLabel(organization', project', service', organizationId, n, bases, lib);
    PlannedIsPart(organization, project, service, publicService, lib);
    DeployedIsPart(organization', project', service', organizationId, lib);
    PreviewIdentitiesAgreeIff(key, a, b, lib);
    PreviewLabelHasNoDot(n, a, lib);
    PreviewLabelHasNoDot(n, b, lib);
    FirstDotSplits(PreviewLabel(key, a, lib), PreviewLabel(key, b, lib), PlannedBase(specified), DeployedBase(bases));
  }

  /** Under one base domain, the identities alone decide. */
  lemma IdentityDecidesUnderOneBase(organization: Named, project: Named, service: Named, publicService: bool,
                                    organization': Named, project': Named, service': Named, organizationId: string,
                                    n: nat, baseDomain: string, bases: BaseDomains, lib: Library)
    requires Lawful(lib) && 0 < n < TEN_DIGITS
    requires baseDomain != [] && DeployedBase(bases) == baseDomain
    requires Separated(PlannedIdentity(organization, project, service, publicService, lib),
                       DeployedIdentity(organization', project', service', organizationId, lib),
                       MAX_PREVIEW_IDENTITY, lib)
    ensures FilledPattern(organization, project, service, publicService, n, baseDomain, lib)
         == RuntimeHostname(organization', project', service', organizationId, n, bases, lib)
       <==> (PlannedIdentity(organization, project, service, publicService, lib)
             == DeployedIdentity(organization', project', service', organizationId, lib))
  {
    PatternMeetsRuntimeIff(organization, project, service, publicService,
                           organization', project', service', organizationId, n, baseDomain, bases, lib);
  }

  /** A service with a base domain of its own, other than its plan's, never meets its pattern,
      whatever the records, unless the request names a base domain. */
  lemma OwnBaseMissesPattern(organization: Named, project: Named, service: Named, publicService: bool,
                             organization': Named, project': Named, service': Named, organizationId: string,
                             n: nat, specified: string, bases: BaseDomains, lib: Library)
    requires Lawful(lib) && 0 < n < TEN_DIGITS
    requires bases.request == [] && bases.service != [] && bases.service != PlannedBase(specified)
    ensures FilledPattern(organization, project, service, publicService, n, specified, lib)
         != RuntimeHostname(organization', project', service', organizationId, n, bases, lib)
  {
    var a := PlannedIdentity(organization, project, service, publicService, lib);
    var b := DeployedIdentity(organization', project', service', organizationId, lib);
    var key := PreviewKey(n);
    FilledPatternLabel(organization, project, service, publicService, n, specified, lib);
    RuntimeLabel(organization', project', service', organizationId, n, bases, lib);
    PreviewLabelHasNoDot(n, a, lib);
    PreviewLabelHasNoDot(n, b, lib);
    FirstDotSplits(PreviewLabel(key, a, lib), PreviewLabel(key, b, lib), PlannedBase(specified), DeployedBase(bases));
  }

  lemma PlannedIsPart(organization: Named, project: Named, service: Named, publicService: bool, lib: Library)
    ensures RoutePart(PlannedIdentity(organization, project, service, publicService, lib))
  {
    var o, p := PlannedName(organization, "org"), PlannedName(project, "project");
    TenantIdentityIsPart(o, p, lib);
    ServiceIdentityIsPart(o, p, service.name, lib);
  }

  lemma DeployedIsPart(organization: Named, project: Named, service: Named, organizationId: string, lib: Library)
    ensures RoutePart(DeployedIdentity(organization, project, service, organizationId, lib))
  {
    ServiceIdentityIsPart(DeployedName(organization, organizationId, "org"),
                          DeployedName(project, project.id, "project"),
                          DeployedName(service, service.id, "service"), lib);
  }

  lemma SameTenantIdentities(o: string, p: string, planned: string, publicService: bool, deployed: string, lib: Library)
    ensures PatternIdentity(o, p, planned, publicService, lib) == ServiceIdentity(o, p, deployed, lib)
       <==> NormalizeRoutePart(deployed, lib) == if publicService then NormalizeRoutePart(planned, lib) else MAIN
  {
    var tenant := TenantIdentity(o, p, lib);
    CancelFront(tenant + "--", NormalizeRoutePart(planned, lib), NormalizeRoutePart(deployed, lib));
    assert forall part: string :: |tenant + "--" + part| > |tenant|;
  }

  /** With complete records on both sides: a public service must have a slug that normalizes like its
      name, any other service the slug `web`, and the base domains must be one. */
  lemma SlugMustMatchName(organization: Named, project: Named, service: Named, publicService: bool,
                          organizationId: string, n: nat, specified: string, bases: BaseDomains, lib: Library)
    requires Lawful(lib) && 0 < n < TEN_DIGITS
    requires organization.slug != [] && project.slug != [] && service.slug != []
    requires Separated(PlannedIdentity(organization, project, service, publicService, lib),
                       DeployedIdentity(organization, project, service, organizationId, lib), MAX_PREVIEW_IDENTITY, lib)
    ensures FilledPattern(organization, project, service, publicService, n, specified, lib)
         == RuntimeHostname(organization, project, service, organizationId, n, bases, lib)
       <==> (&& NormalizeRoutePart(service.slug, lib)
                == (if publicService then NormalizeRoutePart(service.name, lib) else MAIN)
             && PlannedBase(specified) == DeployedBase(bases))
  {
    PatternMeetsRuntimeIff(organization, project, service, publicService,
                           organization, project, service, organizationId, n, specified, bases, lib);
    SameTenantIdentities(organization.slug, project.slug, service.name, publicService, service.slug, lib);
  }

  lemma ServiceIdentityLength(o: string, p: string, name: string, lib: Library)
    requires Lawful(lib) && RoutePart(o) && RoutePart(p) && RoutePart(name)
    ensures ServiceIdentity(o, p, name, lib) == o + "--" + p + (if name == MAIN then [] else "--" + name)
  {
    NormalizeIdentity(o, lib);
    NormalizeIdentity(p, lib);
    NormalizeIdentity(name, lib);
    assert o + "--" + p + "--" + name == o + "--" + p + ("--" + name);
    assert o + "--" + p + [] == o + "--" + p;
  }

  lemma ShortNamesMiss(organization: Named, project: Named, service: Named, n: nat, specified: string,
                       bases: BaseDomains, lib: Library)
    requires Lawful(lib) && 0 < n < TEN_DIGITS
    requires RoutePart(organization.slug) && RoutePart(project.slug)
    requires RoutePart(service.name) && RoutePart(service.slug) && service.name != service.slug
    requires |organization.slug| + |project.slug| + |service.name| + 4 <= MAX_PREVIEW_IDENTITY
    requires |organization.slug| + |project.slug| + |service.slug| + 4 <= MAX_PREVIEW_IDENTITY
    ensures FilledPattern(organization, project, service, true, n, specified, lib)
         != RuntimeHostname(organization, project, service, "", n, bases, lib)
  {
    ServiceIdentityLength(organization.slug, project.slug, service.name, lib);
    ServiceIdentityLength(organization.slug, project.slug, service.slug, lib);
    NormalizeIdentity(service.name, lib);
    NormalizeIdentity(service.slug, lib);
    SlugMustMatchName(organization, project, service, true, "", n, specified, bases, lib);
  }

  /** A public service named `my--svc` with the slug `my-svc`: its preview gets another host name
      than its pattern says. */
  lemma SlugMissesPattern(organization: Named, project: Named, service: Named, n: nat, specified: string,
                          bases: BaseDomains, lib: Library)
    requires Lawful(lib) && 0 < n < TEN_DIGITS
    requires organization.slug == "acme" && project.slug == "shop"
    requires service.name == "my--svc" && service.slug == "my-svc"
    ensures FilledPattern(organization, project, service, true, n, specified, lib)
         != RuntimeHostname(organization, project, service, "", n, bases, lib)
  {
    WitnessParts(organization.slug, project.slug, service.name, service.slug);
    ShortNamesMiss(organization, project, service, n, specified, bases, lib);
  }

  lemma WitnessParts(o: string, p: string, name: string, slug: string)
    requires o == "acme" && p == "shop" && name == "my--svc" && slug == "my-svc"
    ensures RoutePart(o) && RoutePart(p) && RoutePart(name) && RoutePart(slug)
    ensures |o| == 4 && |p| == 4 && |name| == 7 && |slug| == 6
  {
  }

  /** Where the runtime is handed ids only, every public service misses its pattern whose
      organization id is not its organization's slug, however its own id and name read. */
  lemma IdsMissPattern(organization: Named, project: Named, service: Named, n: nat, specified: string,
                       bases: BaseDomains, lib: Library)
    requires Lawful(lib) && 0 < n < TEN_DIGITS
    requires organization.slug != [] && project.slug != []
    requires Plain(NormalizeRoutePart(organization.slug, lib)) && Plain(NormalizeRoutePart(organization.id, lib))
    requires organization.id != [] && project.id != [] && service.id != []
    requires NormalizeRoutePart(organization.id, lib) != NormalizeRoutePart(organization.slug, lib)
    requires Separated(ServiceIdentity(organization.slug, project.slug, service.name, lib),
                       ServiceIdentity(organization.id, project.id, service.id, lib), MAX_PREVIEW_IDENTITY, lib)
    ensures FilledPattern(organization, project, service, true, n, specified, lib)
         != RuntimeHostname(Named("", "", organization.id), Named("", "", project.id), Named("", "", service.id),
                            organization.id, n, bases, lib)
  {
    IdentitiesAgreeIff(Service(organization.slug, project.slug, service.name),
                       Service(organization.id, project.id, service.id), lib);
    PatternMeetsRuntimeIff(organization, project, service, true,
                           Named("", "", organization.id), Named("", "", project.id), Named("", "", service.id),
                           organization.id, n, specified, bases, lib);
  }

  // ---------------------------------------------------------------- the generated names, written out

  /** A text without letters and digits becomes "item". */
  lemma NothingLeft(value: string, lib: Library)
    requires forall i :: 0 <= i < |lib.lower(Trim(value))| ==> !IsLowerAlnum(lib.lower(Trim(value))[i])
    ensures NormalizeRoutePart(value, lib) == "item"
  {
    SquashedHyphens(lib.lower(Trim(value)));
    HyphensStripped(Squash(lib.lower(Trim(value))));
  }

  lemma {:induction false} SquashedHyphens(s: string)
    requires forall i :: 0 <= i < |s| ==> !IsLowerAlnum(s[i])
    ensures forall i :: 0 <= i < |Squash(s)| ==> Squash(s)[i] == '-'
    decreases |s|
  {
    if s != [] {
      var rest := if IsLabelChar(s[0]) then s[1..] else SkipOthers(s);
      SkippedIsSuffix(s);
      SquashedHyphens(rest);
    }
  }

  lemma {:induction false} SkippedIsSuffix(s: string)
    ensures SkipOthers(s) == s[|s| - |SkipOthers(s)|..]
  {
    if s != [] && !IsLabelChar(s[0]) {
      SkippedIsSuffix(s[1..]);
    }
  }

  lemma {:induction false} HyphensStripped(s: string)
    requires forall i :: 0 <= i < |s| ==> s[i] == '-'
    ensures StripLeading(s) == []
  {
    if s != [] {
      HyphensStripped(s[1..]);
    }
  }

  /** The label of a route whose parts need no normalizing. */
  function Spelled(route: Route): string {
    match route
    case Service(_, _, _) => "apps" + "--" + SpelledIdentity(route)
    case Preview(_, _, _, key) => "preview" + "--" + key + "--" + SpelledIdentity(route)
    case ResourceConsole(_, _, _) => "resources" + "--" + SpelledIdentity(route)
    case _ => "console" + "--" + SpelledIdentity(route)
  }

  function SpelledService(organization: string, project: string, service: string): string {
    organization + "--" + project + if service == "web" then "" else "--" + service
  }

  predicate CleanParts(route: Route) {
    && RoutePart(route.organization)
    && (!route.WorkspaceConsole? ==> RoutePart(route.project))
    && (!route.WorkspaceConsole? && !route.ProjectConsole? ==> RoutePart(route.name))
    && (route.Preview? ==> RoutePart(route.preview))
  }

  /** A label that fits, 63 characters and 39 for the identity in a preview, is written out in full. */
  lemma LabelSpelled(route: Route, lib: Library)
    requires Lawful(lib) && CleanParts(route)
    requires if route.Preview? then |SpelledIdentity(route)| <= 39
             else |Spelled(route)| <= 63
    ensures RouteLabel(route, lib) == Spelled(route)
  {
    IdentitySpelled(route, lib);
    RouteIdentityIsPart(route, lib);
    if route.Preview? {
      PreviewFits(route.preview, RouteIdentity(route, lib), lib);
    } else {
      ZoneIsPart(route);
      ZonedFits(Zone(route), RouteIdentity(route, lib), lib);
    }
  }

  lemma ZonedFits(zone: string, identity: string, lib: Library)
    requires Lawful(lib) && RoutePart(zone) && RoutePart(identity) && |zone + "--" + identity| <= 63
    ensures ZonedLabel(zone, identity, lib) == zone + "--" + identity
  {
    JoinedParts(zone, "--", identity);
    NormalizeIdentity(zone + "--" + identity, lib);
  }

  lemma PreviewFits(key: string, identity: string, lib: Library)
    requires Lawful(lib) && RoutePart(key) && RoutePart(identity) && |identity| <= 39
    ensures PreviewLabel(NormalizeRoutePart(key, lib), identity, lib) == "preview" + "--" + key + "--" + identity
  {
    NormalizeIdentity(key, lib);
    NormalizeIdentity(identity, lib);
  }

  /** What stands behind the zone. */
  function SpelledIdentity(route: Route): string {
    match route
    case Service(o, p, n) => SpelledService(o, p, n)
    case Preview(o, p, n, _) => SpelledService(o, p, n)
    case ServiceConsole(o, p, n) => o + "--" + p + "-" + n
    case ResourceConsole(o, p, n) => o + "--" + p + "-" + n
    case ProjectConsole(o, p) => o + "--" + p
    case WorkspaceConsole(o) => o
  }

  lemma IdentitySpelled(route: Route, lib: Library)
    requires Lawful(lib) && CleanParts(route)
    ensures RouteIdentity(route, lib) == SpelledIdentity(route)
  {
    NormalizeIdentity(route.organization, lib);
    match route
    case Service(o, p, n) => PartsSpelled(o, p, n, lib);
    case Preview(o, p, n, _) => PartsSpelled(o, p, n, lib);
    case ServiceConsole(o, p, n) => PartsSpelled(o, p, n, lib);
    case ResourceConsole(o, p, n) => PartsSpelled(o, p, n, lib);
    case ProjectConsole(o, p) => NormalizeIdentity(p, lib);
    case WorkspaceConsole(_) =>
  }

  lemma PartsSpelled(o: string, p: string, n: string, lib: Library)
    requires Lawful(lib) && RoutePart(o) && RoutePart(p) && RoutePart(n)
    ensures NormalizeRoutePart(n, lib) == n && TenantIdentity(o, p, lib) == o + "--" + p
    ensures ServiceIdentity(o, p, n, lib) == SpelledService(o, p, n)
  {
    NormalizeIdentity(o, lib);
    NormalizeIdentity(p, lib);
    NormalizeIdentity(n, lib);
    if n == "web" {
      assert o + "--" + p + "" == o + "--" + p;
    } else {
      assert o + "--" + p + ("--" + n) == o + "--" + p + "--" + n;
    }
  }

  /** A longer one is cut: its front without trailing hyphens, a hyphen, and the first twelve
      characters of the hash of the stable identity, or of the text itself without one. */
  lemma LongLabelSpelled(text: string, limit: nat, stable: Option<string>, lib: Library) returns (k: nat)
    requires Lawful(lib) && RoutePart(text) && |text| > limit >= 14
    ensures 0 < k <= limit - 13 && text[k - 1] != '-' && forall i :: k <= i < limit - 13 ==> text[i] == '-'
    ensures var identity := if stable.Some? && Trim(stable.value) != "" then Trim(stable.value) else text;
      && |lib.hash(identity)| >= 12
      && BoundedDnsLabel(text, limit, stable, lib) == text[..k] + "-" + lib.hash(identity)[..12]
  {
    NormalizeIdentity(text, lib);
    var identity := if stable.Some? && Trim(stable.value) != "" then Trim(stable.value) else text;
    SuffixShape(identity, lib);
    k := FrontKept(text, limit - 13);
    ShortenedSpelled(text, limit, identity, lib, k);
  }

  lemma ShortenedSpelled(text: string, limit: nat, identity: string, lib: Library, k: nat)
    requires |text| > limit >= 14 && |lib.hash(identity)| >= 12
    requires 0 < k <= limit - 13 && StripTrailing(text[..limit - 13]) == text[..k]
    ensures Shortened(text, limit, identity, lib) == text[..k] + "-" + lib.hash(identity)[..12]
  {
  }

  /** The front of a text without its trailing hyphens. */
  lemma FrontKept(text: string, m: nat) returns (k: nat)
    requires 0 < m <= |text| && text[0] != '-'
    ensures 0 < k <= m && StripTrailing(text[..m]) == text[..k]
    ensures text[k - 1] != '-' && forall i :: k <= i < m ==> text[i] == '-'
  {
    var cut := text[..m];
    StripTrailingPrefix(cut);
    StripTrailingKeeps(cut, 0);
    StrippedHyphens(cut);
    k := |StripTrailing(cut)|;
    assert StripTrailing(cut) == cut[..k] == text[..k];
    assert text[k - 1] == StripTrailing(cut)[k - 1];
    assert forall i :: k <= i < m ==> text[i] == cut[i];
  }

  lemma {:induction false} StrippedHyphens(s: string)
    ensures |StripTrailing(s)| <= |s| && forall i :: |StripTrailing(s)| <= i < |s| ==> s[i] == '-'
  {
    if s != [] && s[|s| - 1] == '-' {
      StrippedHyphens(s[..|s| - 1]);
    }
  }

  /** The name a record is routed by: its slug, its name, its id, or a fixed word. */
  predicate RoutedAs(record: Named, id: string, otherwise: string, name: string) {
    name == if record.slug != "" then record.slug else if record.name != "" then record.name
            else if id != "" then id else otherwise
  }

  /** Which names, key and base domain a deployed preview is routed under. */
  lemma RuntimeByFields(organization: Named, project: Named, service: Named, organizationId: string, pullRequest: int,
                        bases: BaseDomains, lib: Library, o: string, p: string, n: string, key: string, base: string)
    requires RoutedAs(organization, organizationId, "org", o)
    requires RoutedAs(project, project.id, "project", p) && RoutedAs(service, service.id, "service", n)
    requires key == if pullRequest > 0 then "pr-" + Decimal(pullRequest) else "pr-0"
    requires base == if bases.request != "" then bases.request else if bases.service != "" then bases.service
                     else if bases.project != "" then bases.project else "raibitserver.app"
    ensures RuntimeHostname(organization, project, service, organizationId, pullRequest, bases, lib)
         == RouteLabel(Preview(o, p, n, key), lib) + "." + base
  {
    assert PreviewKey(pullRequest) == key && key != [];
    assert DeployedBase(bases) == base;
  }

  /** A custom domain is served under its own name, every other service under its route. */
  lemma CustomDomainVerbatim(organization: string, project: string, service: string, baseDomain: string,
                             customDomain: string, preview: string, lib: Library)
    ensures ServiceHostname(organization, project, service, baseDomain, customDomain, preview, lib)
         == if customDomain != "" then customDomain
            else if preview != ""
            then RouteLabel(Preview(organization, project, service, preview), lib) + "." + baseDomain
            else RouteLabel(Service(organization, project, service), lib) + "." + baseDomain
  {
  }
}
