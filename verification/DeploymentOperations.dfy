/** Retry and redeploy: building the successor of a stored deployment
    (packages/core/src/deployment-operations.ts, packages/core/src/persistence.ts). */
module DeploymentOperations {
  import opened Text
  import opened Json
  import opened ImageReferences

  datatype Status =
    | Queued | Building | ImageReady | Deploying | ReadyStatus | BuildFailed | Failed
    | Cancelled | PreviewCleanupRequested | RollbackRequested | CleanedUp

  datatype Deployment = Deployment(
    id: string, serviceId: string, projectId: string, status: Status, createdAt: string,
    snapshotVersion: Option<int>, desiredSpecSnapshot: Option<Json>,
    sourceDeploymentId: Option<string>, retryOfDeploymentId: Option<string>,
    requestIdempotencyKey: Option<string>, requestedByUserId: Option<string>, triggerType: Option<string>,
    commitSha: Option<string>, commitHash: Option<string>,
    imageUrl: Option<string>, imageDigest: Option<string>, image: Option<string>,
    branch: Option<string>, deploymentType: Option<string>,
    pullRequestNumber: Option<int>, previewUrl: Option<string>,
    previewLineageId: Option<string>, previewGeneration: Option<int>, previewRuntime: Option<Json>)

  datatype OperationKind = Retry | Redeploy

  datatype Operation = Operation(
    kind: OperationKind, serviceId: string, sourceDeploymentId: Option<string>,
    requestedByUserId: string, requestIdempotencyKey: string, snapshotVersion: int)

  datatype Refusal =
    | SourceNotFound | SourceIneligible | SnapshotUnavailable | StaleSnapshot
    | ActiveDeployment | ServiceDeleting | ProjectDeleting | QuotaExceeded
    | IdempotencyConflict | LineageJobMissing

  datatype Outcome<+T> = Accepted(value: T) | Refused(why: Refusal)

  predicate EligibleStatus(kind: OperationKind, status: Status) {
    status.BuildFailed? || status.Failed? || (kind.Redeploy? && status.ReadyStatus?)
  }

  // ---------------------------------------------------------------- what kind of source

  datatype Kind = Local | Image | Git | OtherSource

  function TextMember(spec: seq<(string, Json)>, key: string): string {
    match Lookup(spec, key)
    case Some(Str(s)) => Trim(s)
    case _ => []
  }

  function Hyphenated(s: string): string {
    seq(|s|, i requires 0 <= i < |s| => if s[i] == '_' then '-' else s[i])
  }

  function SourceKind(imageUrl: Option<string>, spec: seq<(string, Json)>): Kind {
    var repo := FirstText(TextMember(spec, "repoUrl"), TextMember(spec, "repositoryUrl"));
    var sourceType := Lower(TextMember(spec, "sourceType"));
    var mode := Hyphenated(Lower(TextMember(spec, "buildMode")));
    if TextMember(spec, "localPath") != [] then Local
    else if sourceType == "image" || mode in ["image", "prebuilt", "prebuilt-image"]
            || (repo == [] && TextOf(imageUrl) != [])
    then Image
    else if repo != [] || sourceType in ["git", "github"] then Git
    else OtherSource
  }

  predicate CommitId(s: string) {
    (|s| == 40 || |s| == 64) && (forall i :: 0 <= i < |s| ==> IsHex(s[i])) && exists i :: 0 <= i < |s| && s[i] != '0'
  }

  function PinCommit(commitSha: Option<string>, commitHash: Option<string>): (r: Option<string>)
    ensures r.Some? ==> CommitId(r.value)
  {
    var sha, hash := Lower(TextOf(commitSha)), Lower(TextOf(commitHash));
    var commit := if sha != [] then sha else hash;
    if !CommitId(commit) || (sha != [] && hash != [] && sha != hash) then None else Some(commit)
  }

  // ---------------------------------------------------------------- the successor

  function Coalesce<T>(a: Option<T>, b: Option<T>): Option<T> {
    if a.Some? then a else b
  }

  /** The commit pair, the image pair: pinned for the source kind that needs it. */
  datatype Pins = Pins(
    commitSha: Option<string>, commitHash: Option<string>, imageUrl: Option<string>, imageDigest: Option<string>)

  function PinsFor(source: Deployment, spec: seq<(string, Json)>): Option<Pins> {
    var sha, hash := Coalesce(source.commitSha, source.commitHash), Coalesce(source.commitHash, source.commitSha);
    match SourceKind(source.imageUrl, spec)
    case Git =>
      (match PinCommit(source.commitSha, source.commitHash)
       case None => None
       case Some(c) => Some(Pins(Some(c), Some(c), source.imageUrl, source.imageDigest)))
    case Image =>
      (match Pin(source.imageUrl, source.imageDigest)
       case None => None
       case Some(p) => Some(Pins(sha, hash, Some(p.imageUrl), Some(p.imageDigest))))
    case _ => Some(Pins(sha, hash, source.imageUrl, source.imageDigest))
  }

  /** `id` and `createdAt` are the fresh id and the storage time of the new record. */
  function Successor(source: Option<Deployment>, input: Operation, id: string, createdAt: string): Outcome<Deployment> {
    if source.None? || source.value.serviceId != input.serviceId then Refused(SourceNotFound)
    else
      var s := source.value;
      if !EligibleStatus(input.kind, s.status) then Refused(SourceIneligible)
      else if s.snapshotVersion.None? || s.snapshotVersion.value == 0
              || s.desiredSpecSnapshot.None? || !s.desiredSpecSnapshot.value.Obj?
      then Refused(SnapshotUnavailable)
      else if s.snapshotVersion.value != 1 || input.snapshotVersion != 1 then Refused(StaleSnapshot)
      else
        match PinsFor(s, s.desiredSpecSnapshot.value.members)
        case None => Refused(SourceIneligible)
        case Some(p) => Accepted(Deployment(
          id, s.serviceId, s.projectId, Queued, createdAt,
          s.snapshotVersion, s.desiredSpecSnapshot,
          Some(s.id), if input.kind.Retry? then Some(s.id) else None,
          Some(input.requestIdempotencyKey), Some(input.requestedByUserId),
          Some(if input.kind.Retry? then "retry" else "redeploy"),
          p.commitSha, p.commitHash, p.imageUrl, p.imageDigest, None,
          Coalesce(s.branch, Some("main")), Coalesce(s.deploymentType, Some("production")),
          s.pullRequestNumber, s.previewUrl, s.previewLineageId, s.previewGeneration, s.previewRuntime))
  }

  /** Everything a successor pins: what will be built and where it will run. */
  datatype Identity = Identity(
    serviceId: string, projectId: string, snapshotVersion: Option<int>, snapshot: Option<Json>, kind: Kind, pins: Pins,
    branch: Option<string>, deploymentType: Option<string>, pullRequestNumber: Option<int>, previewUrl: Option<string>,
    previewLineageId: Option<string>, previewGeneration: Option<int>, previewRuntime: Option<Json>)

  function PinnedOf(d: Deployment): Identity {
    Identity(d.serviceId, d.projectId, d.snapshotVersion, d.desiredSpecSnapshot,
           if d.desiredSpecSnapshot.Some? && d.desiredSpecSnapshot.value.Obj?
           then SourceKind(d.imageUrl, d.desiredSpecSnapshot.value.members) else OtherSource,
           Pins(d.commitSha, d.commitHash, d.imageUrl, d.imageDigest),
           d.branch, d.deploymentType, d.pullRequestNumber,
           d.previewUrl, d.previewLineageId, d.previewGeneration, d.previewRuntime)
  }

  // ---------------------------------------------------------------- replay is a fixed point

  lemma LowerCommit(c: string)
    requires CommitId(c)
    ensures Lower(c) == c && Trim(c) == c && c != []
  {
    TrimIdentity(c);
    assert forall i :: 0 <= i < |c| ==> LowerChar(c[i]) == c[i];
  }

  lemma PinCommitIdempotent(commitSha: Option<string>, commitHash: Option<string>)
    requires PinCommit(commitSha, commitHash).Some?
    ensures var c := PinCommit(commitSha, commitHash); PinCommit(c, c) == c
  {
    LowerCommit(PinCommit(commitSha, commitHash).value);
  }

  /** Only text can be pinned. */
  lemma PinNeedsText(imageUrl: Option<string>, imageDigest: Option<string>)
    ensures Pin(imageUrl, imageDigest).Some? ==> TextOf(imageUrl) != []
  {
    SplitWhole([], '@');
    SplitWhole([], '/');
  }

  lemma GitFixedPoint(source: Deployment, next: Deployment, spec: seq<(string, Json)>)
    requires SourceKind(source.imageUrl, spec).Git? && PinsFor(source, spec).Some?
    requires PinsFor(source, spec).value == Pins(next.commitSha, next.commitHash, next.imageUrl, next.imageDigest)
    ensures next.imageUrl == source.imageUrl && PinsFor(next, spec) == PinsFor(source, spec)
  {
    PinCommitIdempotent(source.commitSha, source.commitHash);
  }

  lemma ImageFixedPoint(source: Deployment, next: Deployment, spec: seq<(string, Json)>)
    requires SourceKind(source.imageUrl, spec).Image? && PinsFor(source, spec).Some?
    requires PinsFor(source, spec).value == Pins(next.commitSha, next.commitHash, next.imageUrl, next.imageDigest)
    ensures TextOf(next.imageUrl) != [] && SourceKind(next.imageUrl, spec).Image?
    ensures PinsFor(next, spec) == PinsFor(source, spec)
  {
    PinIdempotent(source.imageUrl, source.imageDigest);
    PinNeedsText(next.imageUrl, next.imageDigest);
    StaysImage(source.imageUrl, next.imageUrl, spec);
  }

  lemma StaysImage(imageUrl: Option<string>, imageUrl': Option<string>, spec: seq<(string, Json)>)
    requires SourceKind(imageUrl, spec).Image? && TextOf(imageUrl') != []
    ensures SourceKind(imageUrl', spec).Image?
  {
  }

  /** Pinning the pinned fields again yields them unchanged, with the same source kind. */
  lemma PinsFixedPoint(source: Deployment, next: Deployment, spec: seq<(string, Json)>)
    requires PinsFor(source, spec).Some?
    requires PinsFor(source, spec).value == Pins(next.commitSha, next.commitHash, next.imageUrl, next.imageDigest)
    ensures SourceKind(next.imageUrl, spec) == SourceKind(source.imageUrl, spec)
    ensures PinsFor(next, spec) == PinsFor(source, spec)
  {
    match SourceKind(source.imageUrl, spec)
    case Git => GitFixedPoint(source, next, spec);
    case Image => ImageFixedPoint(source, next, spec);
    case _ =>
  }

  /** One replay after another: if `next` is the stored successor with nothing but its status (and
      storage time) changed, an eligible operation on it is accepted and pins the same things. */
  lemma ReplayStep(source: Deployment, input: Operation, id: string, at: string, next: Deployment, input': Operation,
                   id': string, at': string)
    requires Successor(Some(source), input, id, at).Accepted?
    requires next == Successor(Some(source), input, id, at).value.(status := next.status)
    requires input'.serviceId == next.serviceId && input'.snapshotVersion == 1
    requires EligibleStatus(input'.kind, next.status)
    ensures Successor(Some(next), input', id', at').Accepted?
    ensures PinnedOf(Successor(Some(next), input', id', at').value) == PinnedOf(next)
  {
    var spec := source.desiredSpecSnapshot.value.members;
    PinsFixedPoint(source, next, spec);
    PinsFixedPoint(next, Successor(Some(next), input', id', at').value, spec);
  }

  /** One link of a replay chain: the status the deployment has reached, then the next request. */
  datatype Link = Link(status: Status, input: Operation, id: string, at: string)

  /** The end of a chain of replays that starts with the stored deployment `d`. */
  function Chain(d: Deployment, links: seq<Link>): Outcome<Deployment> {
    if links == [] then Accepted(d)
    else
      var prior := Chain(d, links[..|links| - 1]);
      if prior.Refused? then prior
      else
        var l := links[|links| - 1];
        Successor(Some(prior.value.(status := l.status)), l.input, l.id, l.at)
  }

  ghost predicate EligibleLinks(serviceId: string, links: seq<Link>) {
    forall i :: 0 <= i < |links| ==>
      && links[i].input.serviceId == serviceId && links[i].input.snapshotVersion == 1
      && EligibleStatus(links[i].input.kind, links[i].status)
  }

  /** Replay is a fixed point: along every finite chain of retries and redeploys that follows a
      first accepted one, every request on an eligible status is accepted, and snapshot, snapshot
      version, source kind, commits, image, branch and preview identity never change. */
  lemma {:induction false} ReplayChain(source: Deployment, input: Operation, id: string, at: string, links: seq<Link>)
    requires Successor(Some(source), input, id, at).Accepted?
    requires EligibleLinks(source.serviceId, links)
    ensures var first := Successor(Some(source), input, id, at).value;
      Chain(first, links).Accepted? && PinnedOf(Chain(first, links).value) == PinnedOf(first)
  {
    var first := Successor(Some(source), input, id, at).value;
    if links != [] {
      var init, l := links[..|links| - 1], links[|links| - 1];
      ReplayChain(source, input, id, at, init);
      if init == [] {
        ReplayStep(source, input, id, at, first.(status := l.status), l.input, l.id, l.at);
      } else {
        var m := init[|init| - 1];
        var before := Chain(first, init[..|init| - 1]).value.(status := m.status);
        ReplayStep(before, m.input, m.id, m.at, Chain(first, init).value.(status := l.status), l.input, l.id, l.at);
      }
    }
  }

  // ---------------------------------------------------------------- told by the source's fields

  /** The trimmed text under a key: of the first member with the key, if that is a text. */
  lemma {:induction false} TextUnderKey(front: seq<(string, Json)>, key: string, value: Json, back: seq<(string, Json)>)
    requires forall i :: 0 <= i < |front| ==> front[i].0 != key
    ensures TextMember(front + [(key, value)] + back, key) == (if value.Str? then Trim(value.text) else [])
    ensures TextMember(front, key) == []
  {
    var spec := front + [(key, value)] + back;
    if front != [] {
      TextUnderKey(front[1..], key, value, back);
      assert spec[1..] == front[1..] + [(key, value)] + back;
    }
  }

  /** A build mode of a ready image, with hyphen or underscore. */
  predicate ImageMode(mode: string) {
    mode == "image" || mode == "prebuilt" || mode == "prebuilt-image" || mode == "prebuilt_image"
  }

  /** Which kind of source a snapshot describes. */
  lemma KindByFields(imageUrl: Option<string>, spec: seq<(string, Json)>)
    ensures var kind := SourceKind(imageUrl, spec);
      var noRepository := TextMember(spec, "repoUrl") == [] && TextMember(spec, "repositoryUrl") == [];
      var sourceType, mode := Lower(TextMember(spec, "sourceType")), Lower(TextMember(spec, "buildMode"));
      var image := sourceType == "image" || ImageMode(mode)
                   || (noRepository && imageUrl.Some? && Trim(imageUrl.value) != []);
      var git := !noRepository || sourceType == "git" || sourceType == "github";
      && (kind.Local? <==> TextMember(spec, "localPath") != [])
      && (kind.Image? <==> TextMember(spec, "localPath") == [] && image)
      && (kind.Git? <==> TextMember(spec, "localPath") == [] && !image && git)
  {
    ModeHyphens(Lower(TextMember(spec, "buildMode")));
  }

  lemma ModeHyphens(mode: string)
    ensures ImageMode(mode) <==> Hyphenated(mode) in ["image", "prebuilt", "prebuilt-image"]
  {
    var h := Hyphenated(mode);
    assert |h| == |mode| && forall i :: 0 <= i < |h| ==> h[i] == if mode[i] == '_' then '-' else mode[i];
    if h == "image" || h == "prebuilt" {
      assert mode == h;
    }
    if h == "prebuilt-image" {
      assert forall i :: 0 <= i < |mode| && i != 8 ==> mode[i] == "prebuilt-image"[i];
      assert mode[8] == '-' || mode[8] == '_';
      assert mode == "prebuilt-image" || mode == "prebuilt_image";
    }
    if mode == "prebuilt_image" {
      assert h == "prebuilt-image";
    }
  }

  /** A commit is pinned exactly when the SHA, or the hash where there is no SHA, is 40 or 64 hexadecimal
      digits in any letter case, not all zero, and does not contradict the other; and it is that one. */
  lemma CommitByFields(commitSha: Option<string>, commitHash: Option<string>, c: string)
    ensures var sha := if commitSha.Some? then Lower(Trim(commitSha.value)) else [];
      var hash := if commitHash.Some? then Lower(Trim(commitHash.value)) else [];
      PinCommit(commitSha, commitHash) == Some(c) <==>
        && c == (if sha != [] then sha else hash) && (sha == [] || hash == [] || sha == hash)
        && (|c| == 40 || |c| == 64) && (exists i :: 0 <= i < |c| && c[i] != '0')
        && (forall i :: 0 <= i < |c| ==> '0' <= c[i] <= '9' || 'a' <= c[i] <= 'f')
  {
  }

  /** What an accepted successor takes from its source, its request and nowhere else. */
  lemma SuccessorByFields(source: Deployment, input: Operation, id: string, at: string)
    requires Successor(Some(source), input, id, at).Accepted?
    ensures source.desiredSpecSnapshot.Some? && source.desiredSpecSnapshot.value.Obj?
    ensures var d := Successor(Some(source), input, id, at).value;
      && d.id == id && d.createdAt == at && d.status == Queued
      && d.serviceId == source.serviceId == input.serviceId && d.projectId == source.projectId
      && d.snapshotVersion == source.snapshotVersion == Some(1) && input.snapshotVersion == 1
      && d.desiredSpecSnapshot == source.desiredSpecSnapshot
      && d.sourceDeploymentId == Some(source.id)
      && d.retryOfDeploymentId == (if input.kind.Retry? then Some(source.id) else None)
      && d.triggerType == Some(if input.kind.Retry? then "retry" else "redeploy")
      && d.requestIdempotencyKey == Some(input.requestIdempotencyKey)
      && d.requestedByUserId == Some(input.requestedByUserId)
      && d.branch == (if source.branch.Some? then source.branch else Some("main"))
      && d.deploymentType == (if source.deploymentType.Some? then source.deploymentType else Some("production"))
      && d.pullRequestNumber == source.pullRequestNumber && d.previewUrl == source.previewUrl
      && d.previewLineageId == source.previewLineageId && d.previewGeneration == source.previewGeneration
      && d.previewRuntime == source.previewRuntime
    ensures var d, spec := Successor(Some(source), input, id, at).value, source.desiredSpecSnapshot.value.members;
      match SourceKind(source.imageUrl, spec)
      case Git =>
        && PinCommit(source.commitSha, source.commitHash).Some?
        && d.commitSha == d.commitHash == PinCommit(source.commitSha, source.commitHash)
        && d.imageUrl == source.imageUrl && d.imageDigest == source.imageDigest
      case Image =>
        && Pin(source.imageUrl, source.imageDigest).Some?
        && d.imageUrl == Some(Pin(source.imageUrl, source.imageDigest).value.imageUrl)
        && d.imageDigest == Some(Pin(source.imageUrl, source.imageDigest).value.imageDigest)
        && SameCommits(source, d)
      case _ => d.imageUrl == source.imageUrl && d.imageDigest == source.imageDigest && SameCommits(source, d)
  {
  }

  /** Each commit field is the source's, or the other one's where the source has none. */
  predicate SameCommits(source: Deployment, d: Deployment) {
    && d.commitSha == (if source.commitSha.Some? then source.commitSha else source.commitHash)
    && d.commitHash == (if source.commitHash.Some? then source.commitHash else source.commitSha)
  }

  /** The source's commits or image can be pinned, where its kind needs it. */
  predicate Pinnable(source: Deployment, spec: seq<(string, Json)>) {
    match SourceKind(source.imageUrl, spec)
    case Git => PinCommit(source.commitSha, source.commitHash).Some?
    case Image => Pin(source.imageUrl, source.imageDigest).Some?
    case _ => true
  }

  /** Which requests are accepted, and why the others are not, in the order of the checks. */
  lemma SuccessorReasons(source: Option<Deployment>, input: Operation, id: string, at: string)
    ensures var answer := Successor(source, input, id, at);
      if source.None? || source.value.serviceId != input.serviceId then answer == Refused(SourceNotFound)
      else
        var s := source.value;
        if !(s.status == BuildFailed || s.status == Failed || (s.status == ReadyStatus && input.kind == Redeploy))
        then answer == Refused(SourceIneligible)
        else if s.snapshotVersion in [None, Some(0)] || s.desiredSpecSnapshot.None? || !s.desiredSpecSnapshot.value.Obj?
        then answer == Refused(SnapshotUnavailable)
        else if s.snapshotVersion != Some(1) || input.snapshotVersion != 1 then answer == Refused(StaleSnapshot)
        else if Pinnable(s, s.desiredSpecSnapshot.value.members) then answer.Accepted?
        else answer == Refused(SourceIneligible)
  {
  }
}
