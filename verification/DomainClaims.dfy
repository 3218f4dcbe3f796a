/** Custom-domain records and their ids: when a claim lasts
    (packages/core/src/store.ts, packages/core/src/ids.ts). */
module DomainClaims {
  import opened Text
  import opened RentalNames
  import opened RentalRows
  import opened RentalJobs
  import DomainRouter

  type Library = DomainRouter.Library

  /** The id of a custom-domain record, made from its host name. */
  function RecordId(hostname: string, lib: Library): string {
    DomainRouter.StableId("dom", [hostname], lib)
  }

  /** Every record stands under the id of its own host name. */
  ghost predicate WellKeyed(domains: map<string, string>, lib: Library) {
    forall k :: k in domains ==> k == RecordId(domains[k], lib)
  }

  /** A claim names the record id of its host name. */
  predicate OwnId(job: Job, lib: Library) {
    job.ClaimDomain? && job.hostname.Ok? ==> job.recordId == RecordId(job.hostname.value, lib)
  }

  predicate Claims(s: Store, job: Job, config: Config) {
    job.ClaimDomain? && job.hostname.Ok? && Succeeds(s, job, config)
  }

  ghost predicate KeepsRecords(before: map<string, string>, after: map<string, string>) {
    forall k :: k in before ==> k in after && after[k] == before[k]
  }

  /** A host name that a record stores is not claimed again. */
  lemma ClaimIsNew(s: Store, job: Job, config: Config, k: string)
    requires Claims(s, job, config) && Admissible(s, job) && k in s.domains
    ensures s.domains[k] != job.hostname.value
  {
    assert |StripDot(Lower(job.hostname.value))| == |Lower(job.hostname.value)|;
  }

  /** An accepted claim keeps every earlier record exactly when no earlier host name has its id. */
  lemma ClaimKeepsRecordsIff(s: Store, job: Job, config: Config, lib: Library)
    requires Claims(s, job, config) && Admissible(s, job) && OwnId(job, lib) && WellKeyed(s.domains, lib)
    ensures var after := Apply(s, job, config).domains;
      && WellKeyed(after, lib) && after == s.domains[job.recordId := job.hostname.value]
      && (KeepsRecords(s.domains, after)
          <==> forall k :: k in s.domains ==> RecordId(s.domains[k], lib) != RecordId(job.hostname.value, lib))
  {
    ClaimApplied(s, job, config);
    if job.recordId in s.domains {
      ClaimIsNew(s, job, config, job.recordId);
    }
    RecordsKeptIff(s.domains, job.recordId, job.hostname.value);
    KeyedRecords(s.domains, job.hostname.value, lib);
  }

  lemma ClaimApplied(s: Store, job: Job, config: Config)
    requires Claims(s, job, config)
    ensures Apply(s, job, config).domains == s.domains[job.recordId := job.hostname.value]
  {
  }

  lemma KeyedRecords(domains: map<string, string>, hostname: string, lib: Library)
    requires WellKeyed(domains, lib)
    ensures WellKeyed(domains[RecordId(hostname, lib) := hostname], lib)
    ensures RecordId(hostname, lib) !in domains
       <==> forall k :: k in domains ==> RecordId(domains[k], lib) != RecordId(hostname, lib)
  {
  }

  lemma RecordsKeptIff(domains: map<string, string>, id: string, hostname: string)
    requires id in domains ==> domains[id] != hostname
    ensures KeepsRecords(domains, domains[id := hostname]) <==> id !in domains
  {
  }

  /** No job on the way is an accepted claim of another host name with this record id. */
  predicate Unrivalled(s: Store, jobs: seq<Job>, id: string, config: Config) {
    jobs != [] ==>
      var init, last := jobs[..|jobs| - 1], jobs[|jobs| - 1];
      Unrivalled(s, init, id, config) && !(Claims(Run(s, init, config), last, config) && last.recordId == id)
  }

  /** The record is there after every job of the run. */
  predicate Lasts(s: Store, jobs: seq<Job>, id: string, hostname: string, config: Config) {
    var domains := Run(s, jobs, config).domains;
    && id in domains && domains[id] == hostname
    && (jobs != [] ==> Lasts(s, jobs[..|jobs| - 1], id, hostname, config))
  }

  /** A record lasts through a run exactly when no job on the way claims its id for another host name:
      rentals never touch it, and refused claims do not either. */
  lemma {:induction false} ClaimLastsIff(s: Store, jobs: seq<Job>, id: string, hostname: string, config: Config)
    requires id in s.domains && s.domains[id] == hostname && AdmissibleRun(s, jobs, config)
    ensures Lasts(s, jobs, id, hostname, config) <==> Unrivalled(s, jobs, id, config)
  {
    if jobs != [] {
      var init := jobs[..|jobs| - 1];
      PrefixRuns(s, jobs, config);
      ClaimLastsIff(s, init, id, hostname, config);
      if Lasts(s, init, id, hostname, config) {
        JobKeepsRecordIff(Run(s, init, config), jobs[|jobs| - 1], id, config);
      }
    }
  }

  lemma PrefixRuns(s: Store, jobs: seq<Job>, config: Config)
    requires jobs != [] && AdmissibleRun(s, jobs, config)
    ensures AdmissibleRun(s, jobs[..|jobs| - 1], config)
    ensures Admissible(Run(s, jobs[..|jobs| - 1], config), jobs[|jobs| - 1])
    ensures Run(s, jobs, config) == Apply(Run(s, jobs[..|jobs| - 1], config), jobs[|jobs| - 1], config)
  {
    var init := jobs[..|jobs| - 1];
    forall i | 0 <= i < |init| ensures Admissible(Run(s, init[..i], config), init[i]) {
      assert init[..i] == jobs[..i];
    }
  }

  lemma JobKeepsRecordIff(s: Store, job: Job, id: string, config: Config)
    requires id in s.domains && Admissible(s, job)
    ensures var domains := Apply(s, job, config).domains;
      id in domains && (domains[id] == s.domains[id] <==> !(Claims(s, job, config) && job.recordId == id))
  {
    if Claims(s, job, config) && job.recordId == id {
      ClaimIsNew(s, job, config, id);
    }
  }

  // ---------------------------------------------------------------- host names with one id

  /** Equal but for which punctuation stands where, as `a.b.com` and `a-b.com` are. */
  predicate Alike(a: string, b: string) {
    && |a| == |b|
    && forall i :: 0 <= i < |a| ==> a[i] == b[i] || (!IsLowerAlnum(a[i]) && !IsLowerAlnum(b[i]))
  }

  lemma {:induction false} SkipAlike(a: string, b: string)
    requires Alike(a, b)
    ensures Alike(DomainRouter.SkipPunctuation(a), DomainRouter.SkipPunctuation(b))
  {
    if a != [] && !IsLowerAlnum(a[0]) {
      SkipAlike(a[1..], b[1..]);
    }
  }

  /** A slug does not tell one punctuation from another. */
  lemma {:induction false} SlugAlike(a: string, b: string)
    requires Alike(a, b)
    ensures DomainRouter.SlugText(a) == DomainRouter.SlugText(b)
    decreases |a|
  {
    if a != [] {
      if IsLowerAlnum(a[0]) {
        SlugAlike(a[1..], b[1..]);
      } else {
        SkipAlike(a, b);
        SlugAlike(DomainRouter.SkipPunctuation(a), DomainRouter.SkipPunctuation(b));
      }
    }
  }

  /** Lower case and without spaces, as every normalized host name is. */
  predicate HostText(s: string, lib: Library) {
    lib.lower(s) == s && forall i :: 0 <= i < |s| ==> !IsSpace(s[i])
  }

  lemma AlikeShareId(a: string, b: string, lib: Library)
    requires Alike(a, b) && HostText(a, lib) && HostText(b, lib)
    ensures RecordId(a, lib) == RecordId(b, lib)
  {
    TrimIdentity(a);
    TrimIdentity(b);
    SlugAlike(a, b);
  }

  /** The failing family: of two alike host names claimed one after the other, the second takes the
      record of the first, and no record names the first any more. */
  lemma LaterClaimDisplaces(s: Store, first: Job, second: Job, config: Config, lib: Library)
    requires WellKeyed(s.domains, lib) && OwnId(first, lib) && OwnId(second, lib)
    requires Claims(s, first, config) && Admissible(s, first)
    requires Claims(Apply(s, first, config), second, config) && Admissible(Apply(s, first, config), second)
    requires Alike(first.hostname.value, second.hostname.value)
    requires HostText(first.hostname.value, lib) && HostText(second.hostname.value, lib)
    ensures var domains := Apply(Apply(s, first, config), second, config).domains;
      && first.recordId in domains && domains[first.recordId] == second.hostname.value
      && forall k :: k in domains ==> domains[k] != first.hostname.value
  {
    var mid := Apply(s, first, config);
    ClaimKeepsRecordsIff(s, first, config, lib);
    ClaimKeepsRecordsIff(mid, second, config, lib);
    AlikeShareId(first.hostname.value, second.hostname.value, lib);
    ClaimIsNew(mid, second, config, first.recordId);
  }

  predicate NormalHost(h: string) {
    Lower(h) == h && StripDot(h) == h
  }

  /** On an empty store any two host names can be claimed one after the other, whatever their ids. */
  lemma TwoClaims(a: string, b: string, id: string, id': string, config: Config)
    requires NormalHost(a) && NormalHost(b) && a != b
    ensures var first, second := ClaimDomain(Ok(a), None, id), ClaimDomain(Ok(b), None, id');
      var s := Start(map[]);
      && Admissible(s, first) && Admissible(Apply(s, first, config), second)
      && Claims(s, first, config) && Claims(Apply(s, first, config), second, config)
      && Apply(Apply(s, first, config), second, config).domains == map[id := a][id' := b]
  {
    var first := ClaimDomain(Ok(a), None, id);
    var s := Start(map[]);
    assert FindHost(s.rows, a).None? && FindHost(s.rows, b).None?;
    assert Apply(s, first, config).domains == map[id := a];
  }

  /** On an empty store, any two such host names are both accepted, and only the second is left. */
  lemma AlikeClaimsCollide(a: string, b: string, config: Config, lib: Library)
    requires Alike(a, b) && a != b && NormalHost(a) && NormalHost(b) && HostText(a, lib) && HostText(b, lib)
    ensures var id := RecordId(a, lib);
      var first, second := ClaimDomain(Ok(a), None, id), ClaimDomain(Ok(b), None, id);
      var s := Start(map[]);
      && OwnId(first, lib) && OwnId(second, lib)
      && Claims(s, first, config) && Claims(Apply(s, first, config), second, config)
      && Apply(Apply(s, first, config), second, config).domains == map[id := b]
  {
    var id := RecordId(a, lib);
    AlikeShareId(a, b, lib);
    TwoClaims(a, b, id, id, config);
    assert map[id := a][id := b] == map[id := b];
  }

  /** One such pair. */
  lemma CollidingHosts(a: string, b: string)
    requires a == "a.b.com" && b == "a-b.com"
    ensures NormalHost(a) && NormalHost(b) && a != b && Alike(a, b)
  {
    assert a[1] != b[1];
  }
}
