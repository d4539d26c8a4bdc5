/** The OSAC image ids of a capture: which containers every deployment should show, what
    its running pods report, and whether the report is complete (ci_observe_capture.py). */
module ImageIds {
  import opened Common
  import opened Sequences
  import opened Strings

  // -- what the cluster answers ----------------------------------------------------------

  /** A field that should hold text; None when it holds anything else. */
  type Text = Option<string>

  datatype ContainerSpec = OddSpec | Spec(name: Text)
  datatype ContainerStatus = OddStatus | Status(name: Text, imageId: Text)

  /** `replicas` and lists are None when they are not what the API promises; `owner` is the
      controlling ReplicaSet or Deployment, "" for none. */
  datatype Resource =
    | Deployment(name: string, replicas: Option<int>, containers: Option<seq<ContainerSpec>>)
    | ReplicaSet(name: string, owner: string)
    | Pod(running: bool, owner: string, statuses: Option<seq<ContainerStatus>>)
    | OtherResource

  predicate SafeChar(c: char) {
    || 'a' <= c <= 'z' || 'A' <= c <= 'Z' || '0' <= c <= '9'
    || c in {'.', '_', ':', '/', '@', '+', '-'}
  }

  function SafePart(value: Text): string {
    if value.None? then "" else Filter(SafeChar, value.value)
  }

  /** Text that survives the rendering unchanged and is not empty. */
  predicate Usable(value: Text) {
    SafePart(value) != "" && Some(SafePart(value)) == value
  }

  /** Text survives the rendering exactly when all its characters are safe. */
  lemma SafeText(s: string)
    ensures Filter(SafeChar, s) == s <==> forall c :: c in s ==> SafeChar(c)
  {
    if forall c :: c in s ==> SafeChar(c) {
      AllKept(SafeChar, s);
    }
  }

  const LOWER := "abcdefghijklmnopqrstuvwxyz"
  const UPPER := "ABCDEFGHIJKLMNOPQRSTUVWXYZ"
  const DIGITS := "0123456789"

  /** The characters that survive, one by one. */
  lemma SafeAlphabet(c: char)
    ensures SafeChar(c) <==> c in LOWER || c in UPPER || c in DIGITS || c in "._:/@+-"
  {
    LowerCase(c);
    UpperCase(c);
    Digit(c);
  }

  lemma LowerCase(c: char)
    ensures c in LOWER <==> 'a' <= c <= 'z'
  {
    if 'a' <= c <= 'z' {
      assert LOWER[c as int - 'a' as int] == c;
    }
  }

  lemma UpperCase(c: char)
    ensures c in UPPER <==> 'A' <= c <= 'Z'
  {
    if 'A' <= c <= 'Z' {
      assert UPPER[c as int - 'A' as int] == c;
    }
  }

  lemma Digit(c: char)
    ensures c in DIGITS <==> '0' <= c <= '9'
  {
    if '0' <= c <= '9' {
      assert DIGITS[c as int - '0' as int] == c;
    }
  }

  // -- first walk: the expected entries ----------------------------------------------------

  /** A deployment's needed replicas and container names. */
  datatype Expected = Expected(need: int, containers: set<string>)

  datatype Plan = Plan(deployments: map<string, Expected>, replicaSets: map<string, string>)

  /** The container names of a deployment, None when one of them cannot be used. */
  function ContainerNames(specs: seq<ContainerSpec>): Option<set<string>> {
    if specs == [] then Some({})
    else
      var before := ContainerNames(Front(specs));
      if before.None? then None
      else
        match Last(specs)
        case OddSpec => before
        case Spec(name) => if Usable(name) then Some(before.value + {name.value}) else None
  }

  function PlanResource(plan: Plan, r: Resource): Option<Plan> {
    match r
    case Deployment(name, replicas, containers) =>
      if containers.None? || replicas.None? || replicas.value < 0 then None
      else
        var names := ContainerNames(containers.value);
        if names.None? || names.value == {} || SafePart(Some(name)) != name then None
        else Some(plan.(deployments := plan.deployments[name := Expected(Max(replicas.value, 1), names.value)]))
    case ReplicaSet(name, owner) =>
      if owner == "" then Some(plan) else Some(plan.(replicaSets := plan.replicaSets[name := owner]))
    case _ => Some(plan)
  }

  /** None when the answer cannot be used at all. */
  function PlanOf(resources: seq<Resource>): Option<Plan> {
    if resources == [] then Some(Plan(map[], map[]))
    else
      var before := PlanOf(Front(resources));
      if before.None? then None else PlanResource(before.value, Last(resources))
  }

  // -- second walk: what the pods report -----------------------------------------------------

  function DeploymentOf(plan: Plan, pod: Resource): string
    requires pod.Pod?
  {
    if pod.owner in plan.replicaSets then plan.replicaSets[pod.owner] else ""
  }

  predicate Observed(plan: Plan, r: Resource) {
    r.Pod? && r.running && DeploymentOf(plan, r) in plan.deployments
  }

  datatype Slot = Slot(deployment: string, container: string)

  function Entry(slot: Slot, id: string): string {
    slot.deployment + "/" + slot.container + "=" + id
  }

  datatype Report = Report(entries: set<string>, counts: map<Slot, nat>, complete: bool)

  predicate GoodStatus(s: ContainerStatus) {
    s.Status? && Usable(s.name) && Usable(s.imageId)
  }

  /** The containers a pod shows with a usable id. */
  function Shown(statuses: seq<ContainerStatus>): set<string> {
    set s | s in statuses && GoodStatus(s) :: s.name.value
  }

  function ReportStatus(r: Report, deployment: string, seen: set<string>, s: ContainerStatus): Report {
    if !s.Status? || !Usable(s.name) then r.(complete := false)
    else
      var slot := Slot(deployment, s.name.value);
      if !Usable(s.imageId) then r.(entries := r.entries + {Entry(slot, "unknown")}, complete := false)
      else
        var entries := r.entries + {Entry(slot, s.imageId.value)};
        if slot.container in seen then r.(entries := entries)
        else r.(entries := entries, counts := r.counts[slot := CountOf(r.counts, slot) + 1])
  }

  function CountOf(counts: map<Slot, nat>, slot: Slot): nat {
    if slot in counts then counts[slot] else 0
  }

  function ReportStatuses(r: Report, deployment: string, statuses: seq<ContainerStatus>): Report {
    if statuses == [] then r
    else
      var front := Front(statuses);
      ReportStatus(ReportStatuses(r, deployment, front), deployment, Shown(front), Last(statuses))
  }

  function ReportPod(plan: Plan, r: Report, pod: Resource): Report {
    if !Observed(plan, pod) then r
    else if pod.statuses.None? then r.(complete := false)
    else ReportStatuses(r, DeploymentOf(plan, pod), pod.statuses.value)
  }

  const NOTHING := Report({}, map[], true)

  function ReportOf(plan: Plan, resources: seq<Resource>): Report {
    if resources == [] then NOTHING else ReportPod(plan, ReportOf(plan, Front(resources)), Last(resources))
  }

  /** The expected slots that too few pods showed. */
  function Missing(plan: Plan, counts: map<Slot, nat>): set<Slot> {
    set d, c | d in plan.deployments && c in plan.deployments[d].containers &&
               CountOf(counts, Slot(d, c)) < plan.deployments[d].need :: Slot(d, c)
  }

  function Entries(plan: Plan, r: Report): set<string> {
    r.entries + set slot | slot in Missing(plan, r.counts) :: Entry(slot, "unknown")
  }

  predicate AllSeen(plan: Plan, r: Report) {
    r.complete && Missing(plan, r.counts) == {}
  }

  // -- what the counts and the flag mean ---------------------------------------------------------

  /** An observed pod whose every status is usable. */
  predicate CleanPod(plan: Plan, r: Resource) {
    Observed(plan, r) ==> r.statuses.Some? && forall s :: s in r.statuses.value ==> GoodStatus(s)
  }

  /** An observed pod of the slot's deployment that shows the slot's container. */
  predicate Shows(plan: Plan, slot: Slot, r: Resource) {
    && Observed(plan, r) && DeploymentOf(plan, r) == slot.deployment
    && r.statuses.Some? && slot.container in Shown(r.statuses.value)
  }

  lemma ShownStep(statuses: seq<ContainerStatus>)
    requires statuses != []
    ensures Shown(statuses) ==
            Shown(Front(statuses)) + if GoodStatus(Last(statuses)) then {Last(statuses).name.value} else {}
  {
    assert statuses == Front(statuses) + [Last(statuses)];
  }

  lemma CountOfUpdate(counts: map<Slot, nat>, mine: Slot, slot: Slot)
    ensures CountOf(counts[mine := CountOf(counts, mine) + 1], slot) == CountOf(counts, slot) + if slot == mine then 1 else 0
  {
  }

  lemma StatusCounts(r: Report, deployment: string, seen: set<string>, s: ContainerStatus)
    ensures ReportStatus(r, deployment, seen, s).counts ==
            if !GoodStatus(s) || s.name.value in seen then r.counts
            else var mine := Slot(deployment, s.name.value); r.counts[mine := CountOf(r.counts, mine) + 1]
  {
  }

  lemma StatusCount(r: Report, deployment: string, seen: set<string>, s: ContainerStatus, slot: Slot)
    ensures CountOf(ReportStatus(r, deployment, seen, s).counts, slot) == CountOf(r.counts, slot) +
            (if slot.deployment == deployment && GoodStatus(s) && slot.container == s.name.value && slot.container !in seen
             then 1 else 0)
  {
    StatusCounts(r, deployment, seen, s);
    if GoodStatus(s) {
      CountOfUpdate(r.counts, Slot(deployment, s.name.value), slot);
    }
  }

  /** One pod counts once for a container, however often it lists it. */
  lemma {:induction false} StatusesCountOnce(r: Report, deployment: string, statuses: seq<ContainerStatus>, slot: Slot)
    ensures CountOf(ReportStatuses(r, deployment, statuses).counts, slot) == CountOf(r.counts, slot) +
            (if slot.deployment == deployment && slot.container in Shown(statuses) then 1 else 0)
  {
    if statuses != [] {
      var front, last := Front(statuses), Last(statuses);
      StatusesCountOnce(r, deployment, front, slot);
      ShownStep(statuses);
      StatusCount(ReportStatuses(r, deployment, front), deployment, Shown(front), last, slot);
    }
  }

  lemma {:induction false} StatusesFlag(r: Report, deployment: string, statuses: seq<ContainerStatus>)
    ensures ReportStatuses(r, deployment, statuses).complete <==>
            r.complete && forall s :: s in statuses ==> GoodStatus(s)
  {
    if statuses != [] {
      var front, last := Front(statuses), Last(statuses);
      assert statuses == front + [last];
      StatusesFlag(r, deployment, front);
      StatusFlag(ReportStatuses(r, deployment, front), deployment, Shown(front), last);
      assert (forall s :: s in statuses ==> GoodStatus(s)) <==>
             (forall s :: s in front ==> GoodStatus(s)) && GoodStatus(last);
    }
  }

  lemma StatusFlag(r: Report, deployment: string, seen: set<string>, s: ContainerStatus)
    ensures ReportStatus(r, deployment, seen, s).complete <==> r.complete && GoodStatus(s)
  {
  }

  /** The count of a slot is the number of running pods that show it. */
  lemma {:induction false} CountsArePods(plan: Plan, resources: seq<Resource>, slot: Slot)
    ensures CountOf(ReportOf(plan, resources).counts, slot) == Count((p: Resource) => Shows(plan, slot, p), resources)
  {
    if resources != [] {
      var front, last := Front(resources), Last(resources);
      CountsArePods(plan, front, slot);
      if Observed(plan, last) && last.statuses.Some? {
        StatusesCountOnce(ReportOf(plan, front), DeploymentOf(plan, last), last.statuses.value, slot);
      }
    }
  }

  /** The flag falls exactly when some observed pod is not clean. */
  lemma {:induction false} FlagIsCleanPods(plan: Plan, resources: seq<Resource>)
    ensures ReportOf(plan, resources).complete <==> forall p :: p in resources ==> CleanPod(plan, p)
  {
    if resources != [] {
      var front, last := Front(resources), Last(resources);
      assert resources == front + [last];
      FlagIsCleanPods(plan, front);
      if Observed(plan, last) && last.statuses.Some? {
        StatusesFlag(ReportOf(plan, front), DeploymentOf(plan, last), last.statuses.value);
      }
      assert ReportOf(plan, resources).complete <==> ReportOf(plan, front).complete && CleanPod(plan, last);
    }
  }

  /** What one status adds: its id, or "unknown" for a container without a usable id. */
  predicate Reports(deployment: string, s: ContainerStatus, e: string) {
    && s.Status? && Usable(s.name)
    && e == Entry(Slot(deployment, s.name.value), if Usable(s.imageId) then s.imageId.value else "unknown")
  }

  lemma StatusEntry(r: Report, deployment: string, seen: set<string>, s: ContainerStatus, e: string)
    ensures e in ReportStatus(r, deployment, seen, s).entries <==> e in r.entries || Reports(deployment, s, e)
  {
    if s.Status? && Usable(s.name) {
      var id := if Usable(s.imageId) then s.imageId.value else "unknown";
      assert ReportStatus(r, deployment, seen, s).entries == r.entries + {Entry(Slot(deployment, s.name.value), id)};
    } else {
      assert ReportStatus(r, deployment, seen, s).entries == r.entries;
    }
  }

  lemma {:induction false} StatusesEntries(r: Report, deployment: string, statuses: seq<ContainerStatus>, e: string)
    ensures e in ReportStatuses(r, deployment, statuses).entries <==>
            e in r.entries || exists s :: s in statuses && Reports(deployment, s, e)
  {
    if statuses != [] {
      var front, last := Front(statuses), Last(statuses);
      assert statuses == front + [last];
      StatusesEntries(r, deployment, front, e);
      StatusEntry(ReportStatuses(r, deployment, front), deployment, Shown(front), last, e);
      assert (exists s :: s in statuses && Reports(deployment, s, e)) <==>
             (exists s :: s in front && Reports(deployment, s, e)) || Reports(deployment, last, e);
    }
  }

  /** An observed pod with a status that reports the entry. */
  predicate PodAdds(plan: Plan, p: Resource, e: string) {
    Observed(plan, p) && p.statuses.Some? && exists s :: s in p.statuses.value && Reports(DeploymentOf(plan, p), s, e)
  }

  lemma PodEntries(plan: Plan, r: Report, p: Resource, e: string)
    ensures e in ReportPod(plan, r, p).entries <==> e in r.entries || PodAdds(plan, p, e)
  {
    if Observed(plan, p) && p.statuses.Some? {
      StatusesEntries(r, DeploymentOf(plan, p), p.statuses.value, e);
    }
  }

  /** The entries are exactly what the statuses of the observed pods report. */
  lemma {:induction false} EntriesExactly(plan: Plan, resources: seq<Resource>, e: string)
    ensures e in ReportOf(plan, resources).entries <==> exists p :: p in resources && PodAdds(plan, p, e)
  {
    if resources != [] {
      var front, last := Front(resources), Last(resources);
      EntriesExactly(plan, front, e);
      PodEntries(plan, ReportOf(plan, front), last, e);
      OneMorePod(plan, resources, e);
    }
  }

  lemma OneMorePod(plan: Plan, resources: seq<Resource>, e: string)
    requires resources != []
    ensures (exists p :: p in resources && PodAdds(plan, p, e)) <==>
            (exists p :: p in Front(resources) && PodAdds(plan, p, e)) || PodAdds(plan, Last(resources), e)
  {
    assert resources == Front(resources) + [Last(resources)];
  }

  /** An expected container was shown by at least as many running pods as its deployment has
      replicas, one if it is scaled to zero. */
  predicate PlanShows(plan: Plan, resources: seq<Resource>, d: string, c: string) {
    d in plan.deployments && c in plan.deployments[d].containers ==>
      Count((p: Resource) => Shows(plan, Slot(d, c), p), resources) >= plan.deployments[d].need
  }

  ghost predicate EveryReplicaSeen(plan: Plan, resources: seq<Resource>) {
    forall d, c :: PlanShows(plan, resources, d, c)
  }

  lemma AllSeenExactlyWhen(plan: Plan, resources: seq<Resource>)
    ensures AllSeen(plan, ReportOf(plan, resources)) <==>
            && (forall p :: p in resources ==> CleanPod(plan, p))
            && EveryReplicaSeen(plan, resources)
  {
    var r := ReportOf(plan, resources);
    FlagIsCleanPods(plan, resources);
    forall d, c ensures Slot(d, c) in Missing(plan, r.counts) <==> !PlanShows(plan, resources, d, c) {
      CountsArePods(plan, resources, Slot(d, c));
    }
    if EveryReplicaSeen(plan, resources) {
      forall slot ensures slot !in Missing(plan, r.counts) {
        assert PlanShows(plan, resources, slot.deployment, slot.container);
        assert slot == Slot(slot.deployment, slot.container);
      }
    }
  }

  // -- unknown entries of a complete report ---------------------------------------------------

  /** An entry reads unknown when its text after the last "=" does. */
  predicate SaysUnknown(e: string) {
    EndsWith(e, "=unknown")
  }

  /** A usable id never holds "=", so an entry reads unknown exactly when its id is that word. */
  lemma SaysUnknownExactlyWhen(slot: Slot, id: string, word: string)
    requires Usable(Some(id)) && word == "unknown"
    ensures SaysUnknown(Entry(slot, id)) <==> id == word
  {
    SafeText(id);
    SafeText(word);
    UnknownIsUsable(word);
    var name := slot.deployment + "/" + slot.container;
    assert !SafeChar('=');
    LastField(name, '=', id, word);
    assert Entry(slot, id) == name + ['='] + id;
    UnknownSuffix(word);
  }

  lemma UnknownSuffix(word: string)
    requires word == "unknown"
    ensures ['='] + word == "=unknown"
  {
  }

  /** Some status of the observed pods has the word "unknown" as its image id. */
  predicate ReportsUnknown(plan: Plan, resources: seq<Resource>, word: string) {
    exists p :: p in resources && PodReportsId(plan, p, word)
  }

  predicate PodReportsId(plan: Plan, p: Resource, id: string) {
    Observed(plan, p) && p.statuses.Some? && exists s :: s in p.statuses.value && s.Status? && s.imageId == Some(id)
  }

  /** In a complete report an entry reads unknown exactly when an observed pod reports that
      very word for its container. */
  lemma UnknownEntryExactlyWhen(plan: Plan, resources: seq<Resource>, slot: Slot, word: string)
    requires AllSeen(plan, ReportOf(plan, resources)) && word == "unknown"
    ensures Entry(slot, word) in Entries(plan, ReportOf(plan, resources)) <==>
            exists p, s :: && p in resources && Observed(plan, p) && p.statuses.Some? && s in p.statuses.value
                           && GoodStatus(s) && s.imageId.value == word
                           && Entry(Slot(DeploymentOf(plan, p), s.name.value), word) == Entry(slot, word)
  {
    var e := Entry(slot, word);
    UnknownIsUsable(word);
    SaysUnknownExactlyWhen(slot, word, word);
    EntriesExactly(plan, resources, e);
    FlagIsCleanPods(plan, resources);
    if p :| p in resources && PodAdds(plan, p, e) {
      assert CleanPod(plan, p);
      var s :| s in p.statuses.value && Reports(DeploymentOf(plan, p), s, e);
      SaysUnknownExactlyWhen(Slot(DeploymentOf(plan, p), s.name.value), s.imageId.value, word);
    }
    if p, s :| && p in resources && Observed(plan, p) && p.statuses.Some? && s in p.statuses.value
               && GoodStatus(s) && s.imageId.value == word
               && Entry(Slot(DeploymentOf(plan, p), s.name.value), word) == e {
      assert Reports(DeploymentOf(plan, p), s, e);
      assert PodAdds(plan, p, e);
    }
  }

  /** So a complete report is free of unknown entries exactly when no observed pod reports
      the word as an image id. */
  lemma NoUnknownExactlyWhen(plan: Plan, resources: seq<Resource>, word: string)
    requires AllSeen(plan, ReportOf(plan, resources)) && word == "unknown"
    ensures (exists e :: e in Entries(plan, ReportOf(plan, resources)) && SaysUnknown(e)) <==>
            ReportsUnknown(plan, resources, word)
  {
    FlagIsCleanPods(plan, resources);
    if e :| e in Entries(plan, ReportOf(plan, resources)) && SaysUnknown(e) {
      EntriesExactly(plan, resources, e);
      var p :| p in resources && PodAdds(plan, p, e);
      UnknownEntryNeedsTheWord(plan, p, e, word);
    }
    if p :| p in resources && PodReportsId(plan, p, word) {
      var e := WordMakesAnUnknownEntry(plan, p, word);
      EntriesExactly(plan, resources, e);
    }
  }

  lemma UnknownEntryNeedsTheWord(plan: Plan, p: Resource, e: string, word: string)
    requires CleanPod(plan, p) && PodAdds(plan, p, e) && SaysUnknown(e) && word == "unknown"
    ensures PodReportsId(plan, p, word)
  {
    var s :| s in p.statuses.value && Reports(DeploymentOf(plan, p), s, e);
    SaysUnknownExactlyWhen(Slot(DeploymentOf(plan, p), s.name.value), s.imageId.value, word);
  }

  lemma WordMakesAnUnknownEntry(plan: Plan, p: Resource, word: string) returns (e: string)
    requires CleanPod(plan, p) && PodReportsId(plan, p, word) && word == "unknown"
    ensures PodAdds(plan, p, e) && SaysUnknown(e)
  {
    var s :| s in p.statuses.value && s.Status? && s.imageId == Some(word);
    assert GoodStatus(s);
    e := Entry(Slot(DeploymentOf(plan, p), s.name.value), word);
    assert Reports(DeploymentOf(plan, p), s, e);
    SaysUnknownExactlyWhen(Slot(DeploymentOf(plan, p), s.name.value), word, word);
  }

  lemma UnknownIsUsable(id: string)
    requires id == "unknown"
    ensures Usable(Some(id))
  {
    SafeText(id);
  }

  // -- the same on the resources themselves ----------------------------------------------------

  predicate IsDeployment(r: Resource, d: string) {
    r.Deployment? && r.name == d
  }

  predicate IsReplicaSet(r: Resource, rs: string) {
    r.ReplicaSet? && r.name == rs && r.owner != ""
  }

  /** The last Deployment of that name in the answer, -1 for none. */
  function LastDeployment(resources: seq<Resource>, d: string): (i: int)
    ensures -1 <= i < |resources|
    ensures i >= 0 ==> IsDeployment(resources[i], d)
    ensures forall j :: i < j < |resources| ==> !IsDeployment(resources[j], d)
  {
    if resources == [] then -1
    else if IsDeployment(Last(resources), d) then |resources| - 1
    else LastDeployment(Front(resources), d)
  }

  /** The last ReplicaSet of that name that names a Deployment, -1 for none. */
  function LastReplicaSet(resources: seq<Resource>, rs: string): (i: int)
    ensures -1 <= i < |resources|
    ensures i >= 0 ==> IsReplicaSet(resources[i], rs)
    ensures forall j :: i < j < |resources| ==> !IsReplicaSet(resources[j], rs)
  {
    if resources == [] then -1
    else if IsReplicaSet(Last(resources), rs) then |resources| - 1
    else LastReplicaSet(Front(resources), rs)
  }

  /** The pod's ReplicaSet belongs to the Deployment. The code files a pod without one under
      the empty name, which no real Deployment has. */
  predicate BelongsTo(resources: seq<Resource>, p: Resource, d: string)
    requires p.Pod?
  {
    var i := LastReplicaSet(resources, p.owner);
    if i >= 0 then resources[i].owner == d else d == ""
  }

  /** The Deployment has a container of that name. */
  predicate HasContainer(r: Resource, c: string) {
    r.Deployment? && r.containers.Some? && Spec(Some(c)) in r.containers.value
  }

  /** Lists and replicas as promised, a container, and only names that render as they are. */
  predicate WellFormed(r: Resource) {
    r.Deployment? ==>
      && r.containers.Some? && r.replicas.Some? && r.replicas.value >= 0 && SafePart(Some(r.name)) == r.name
      && (forall s :: s in r.containers.value && s.Spec? ==> Usable(s.name))
      && (exists s :: s in r.containers.value && s.Spec?)
  }

  lemma {:induction false} NamesAreUsable(specs: seq<ContainerSpec>)
    ensures ContainerNames(specs).Some? <==> forall s :: s in specs && s.Spec? ==> Usable(s.name)
    ensures ContainerNames(specs).Some? ==> (ContainerNames(specs).value == {} <==> forall s :: s in specs ==> s.OddSpec?)
  {
    if specs != [] {
      assert specs == Front(specs) + [Last(specs)];
      NamesAreUsable(Front(specs));
      assert (forall s :: s in specs && s.Spec? ==> Usable(s.name)) <==>
             (forall s :: s in Front(specs) && s.Spec? ==> Usable(s.name)) && (Last(specs).Spec? ==> Usable(Last(specs).name));
      assert (forall s :: s in specs ==> s.OddSpec?) <==> (forall s :: s in Front(specs) ==> s.OddSpec?) && Last(specs).OddSpec?;
    }
  }

  lemma {:induction false} NamesAreTheSpecs(specs: seq<ContainerSpec>, c: string)
    requires ContainerNames(specs).Some?
    ensures c in ContainerNames(specs).value <==> Spec(Some(c)) in specs
  {
    if specs != [] {
      assert specs == Front(specs) + [Last(specs)];
      NamesAreTheSpecs(Front(specs), c);
    }
  }

  lemma WellFormedIsPlanned(plan: Plan, r: Resource)
    ensures PlanResource(plan, r).Some? <==> WellFormed(r)
  {
    if r.Deployment? && r.containers.Some? {
      NamesAreUsable(r.containers.value);
    }
  }

  lemma PlannedDeployment(plan: Plan, r: Resource, c: string)
    requires r.Deployment? && PlanResource(plan, r).Some?
    ensures var after := PlanResource(plan, r).value.deployments;
            && r.name in after && r.replicas.Some? && after[r.name].need == Max(r.replicas.value, 1)
            && (c in after[r.name].containers <==> HasContainer(r, c))
  {
    NamesAreTheSpecs(r.containers.value, c);
  }

  /** The plan is usable exactly when every Deployment is well formed. */
  lemma {:induction false} PlanIsUsable(resources: seq<Resource>)
    ensures PlanOf(resources).Some? <==> forall r :: r in resources ==> WellFormed(r)
  {
    if resources != [] {
      assert resources == Front(resources) + [Last(resources)];
      PlanIsUsable(Front(resources));
      if PlanOf(Front(resources)).Some? {
        WellFormedIsPlanned(PlanOf(Front(resources)).value, Last(resources));
      }
    }
  }

  /** It holds the last Deployment of each name with its containers, and its replicas, one
      at least. */
  lemma {:induction false} PlanIsTheLastDeployments(resources: seq<Resource>, d: string, c: string)
    requires PlanOf(resources).Some?
    ensures var planned, i := PlanOf(resources).value.deployments, LastDeployment(resources, d);
            && (d in planned <==> i >= 0)
            && (i >= 0 ==>
                  && resources[i].replicas.Some? && planned[d].need == Max(resources[i].replicas.value, 1)
                  && (c in planned[d].containers <==> HasContainer(resources[i], c)))
  {
    if resources != [] {
      PlanIsTheLastDeployments(Front(resources), d, c);
      if IsDeployment(Last(resources), d) {
        PlannedDeployment(PlanOf(Front(resources)).value, Last(resources), c);
      }
    }
  }

  lemma {:induction false} PlanIsTheLastReplicaSets(resources: seq<Resource>, rs: string)
    requires PlanOf(resources).Some?
    ensures var planned, i := PlanOf(resources).value.replicaSets, LastReplicaSet(resources, rs);
            && (rs in planned <==> i >= 0)
            && (i >= 0 ==> planned[rs] == resources[i].owner)
  {
    if resources != [] {
      PlanIsTheLastReplicaSets(Front(resources), rs);
    }
  }

  lemma BelongsToItsDeployment(resources: seq<Resource>, p: Resource, d: string)
    requires PlanOf(resources).Some? && p.Pod?
    ensures DeploymentOf(PlanOf(resources).value, p) == d <==> BelongsTo(resources, p, d)
  {
    PlanIsTheLastReplicaSets(resources, p.owner);
  }

  /** A running pod of a listed Deployment whose every status is usable, or any other resource. */
  ghost predicate Clean(resources: seq<Resource>, p: Resource) {
    p.Pod? && p.running && (exists d :: BelongsTo(resources, p, d) && LastDeployment(resources, d) >= 0) ==>
      p.statuses.Some? && forall s :: s in p.statuses.value ==> GoodStatus(s)
  }

  /** A running pod of the Deployment that shows the container with a usable id. */
  predicate Runs(resources: seq<Resource>, d: string, c: string, p: Resource) {
    && p.Pod? && p.running && BelongsTo(resources, p, d) && p.statuses.Some?
    && exists s :: s in p.statuses.value && GoodStatus(s) && s.name.value == c
  }

  /** The container was shown by as many running pods of the Deployment as that has replicas,
      by one if it is scaled to zero. */
  predicate ReplicasShow(resources: seq<Resource>, d: string, c: string) {
    var i := LastDeployment(resources, d);
    i >= 0 && HasContainer(resources[i], c) && resources[i].replicas.Some? ==>
      Count((p: Resource) => Runs(resources, d, c, p), resources) >= Max(resources[i].replicas.value, 1)
  }

  /** Every running pod was readable and every container of every Deployment shown. */
  ghost predicate WhollySeen(resources: seq<Resource>) {
    (forall p :: p in resources ==> Clean(resources, p)) && forall d, c :: ReplicasShow(resources, d, c)
  }

  lemma CleanOnResources(resources: seq<Resource>, p: Resource)
    requires PlanOf(resources).Some?
    ensures Clean(resources, p) <==> CleanPod(PlanOf(resources).value, p)
  {
    if p.Pod? {
      var d := DeploymentOf(PlanOf(resources).value, p);
      BelongsToItsDeployment(resources, p, d);
      PlanIsTheLastDeployments(resources, d, "");
      assert forall other :: BelongsTo(resources, p, other) ==> other == d;
    }
  }

  lemma RunsIsShows(resources: seq<Resource>, d: string, c: string, p: Resource)
    requires PlanOf(resources).Some? && LastDeployment(resources, d) >= 0
    ensures Runs(resources, d, c, p) <==> Shows(PlanOf(resources).value, Slot(d, c), p)
  {
    if p.Pod? {
      BelongsToItsDeployment(resources, p, d);
      PlanIsTheLastDeployments(resources, d, c);
      if p.statuses.Some? {
        assert c in Shown(p.statuses.value) <==> exists s :: s in p.statuses.value && GoodStatus(s) && s.name.value == c;
      }
    }
  }

  lemma {:induction false} RunningOnResources(resources: seq<Resource>, d: string, c: string, among: seq<Resource>)
    requires PlanOf(resources).Some? && LastDeployment(resources, d) >= 0
    ensures Count((p: Resource) => Runs(resources, d, c, p), among) ==
            Count((p: Resource) => Shows(PlanOf(resources).value, Slot(d, c), p), among)
  {
    if among != [] {
      RunningOnResources(resources, d, c, Front(among));
      RunsIsShows(resources, d, c, Last(among));
    }
  }

  lemma ReplicasShowOnResources(resources: seq<Resource>, d: string, c: string)
    requires PlanOf(resources).Some?
    ensures ReplicasShow(resources, d, c) <==> PlanShows(PlanOf(resources).value, resources, d, c)
  {
    PlanIsTheLastDeployments(resources, d, c);
    if LastDeployment(resources, d) >= 0 {
      RunningOnResources(resources, d, c, resources);
    }
  }

  /** The flag, on what the cluster answered: it holds exactly when the cluster was wholly seen. */
  lemma AllSeenOnResources(resources: seq<Resource>)
    requires PlanOf(resources).Some?
    ensures var plan := PlanOf(resources).value;
            AllSeen(plan, ReportOf(plan, resources)) <==> WhollySeen(resources)
  {
    var plan := PlanOf(resources).value;
    AllSeenExactlyWhen(plan, resources);
    forall p ensures Clean(resources, p) <==> CleanPod(plan, p) {
      CleanOnResources(resources, p);
    }
    forall d, c ensures ReplicasShow(resources, d, c) <==> PlanShows(plan, resources, d, c) {
      ReplicasShowOnResources(resources, d, c);
    }
  }

  /** What a running pod of a listed Deployment adds: for each container with a usable name
      the id it shows, "unknown" without a usable one. */
  ghost predicate PodTells(resources: seq<Resource>, p: Resource, e: string) {
    && p.Pod? && p.running && p.statuses.Some?
    && exists d, s :: && BelongsTo(resources, p, d) && LastDeployment(resources, d) >= 0 && s in p.statuses.value && Tells(d, s, e)
  }

  predicate Tells(d: string, s: ContainerStatus, e: string) {
    s.Status? && Usable(s.name) && e == d + "/" + s.name.value + "=" + if Usable(s.imageId) then s.imageId.value else "unknown"
  }

  /** A container of a Deployment that too few pods showed. */
  predicate Lacks(resources: seq<Resource>, d: string, c: string) {
    LastDeployment(resources, d) >= 0 && HasContainer(resources[LastDeployment(resources, d)], c) && !ReplicasShow(resources, d, c)
  }

  lemma PodTellsOnResources(resources: seq<Resource>, p: Resource, e: string)
    requires PlanOf(resources).Some?
    ensures PodTells(resources, p, e) <==> PodAdds(PlanOf(resources).value, p, e)
  {
    if p.Pod? && p.running && p.statuses.Some? {
      var d := DeploymentOf(PlanOf(resources).value, p);
      BelongsToItsDeployment(resources, p, d);
      PlanIsTheLastDeployments(resources, d, "");
      assert forall other :: BelongsTo(resources, p, other) ==> other == d;
      assert forall s :: s in p.statuses.value ==> (Tells(d, s, e) <==> Reports(d, s, e));
    }
  }

  lemma LacksOnResources(resources: seq<Resource>, d: string, c: string)
    requires PlanOf(resources).Some?
    ensures var plan := PlanOf(resources).value;
            Lacks(resources, d, c) <==> Slot(d, c) in Missing(plan, ReportOf(plan, resources).counts)
  {
    PlanIsTheLastDeployments(resources, d, c);
    ReplicasShowOnResources(resources, d, c);
    CountsArePods(PlanOf(resources).value, resources, Slot(d, c));
  }

  predicate SaysNothingOf(d: string, c: string, e: string) {
    e == d + "/" + c + "=unknown"
  }

  lemma UnknownEntries(missing: set<Slot>, e: string)
    ensures e in (set slot | slot in missing :: Entry(slot, "unknown")) <==>
            exists slot :: slot in missing && SaysNothingOf(slot.deployment, slot.container, e)
  {
    forall slot: Slot ensures Entry(slot, "unknown") == slot.deployment + "/" + slot.container + "=unknown" {
    }
  }

  ghost predicate SomeLacks(resources: seq<Resource>, e: string) {
    exists d, c :: Lacks(resources, d, c) && SaysNothingOf(d, c, e)
  }

  lemma MissingOnResources(resources: seq<Resource>, e: string)
    requires PlanOf(resources).Some?
    ensures var missing := Missing(PlanOf(resources).value, ReportOf(PlanOf(resources).value, resources).counts);
            SomeLacks(resources, e) <==> exists slot :: slot in missing && SaysNothingOf(slot.deployment, slot.container, e)
  {
    var missing := Missing(PlanOf(resources).value, ReportOf(PlanOf(resources).value, resources).counts);
    forall d, c ensures Lacks(resources, d, c) <==> Slot(d, c) in missing {
      LacksOnResources(resources, d, c);
    }
    if slot :| slot in missing && SaysNothingOf(slot.deployment, slot.container, e) {
      assert slot == Slot(slot.deployment, slot.container);
      assert Lacks(resources, slot.deployment, slot.container);
    }
    if d, c :| Lacks(resources, d, c) && SaysNothingOf(d, c, e) {
      assert Slot(d, c) in missing && SaysNothingOf(Slot(d, c).deployment, Slot(d, c).container, e);
    }
  }

  /** The entries, on what the cluster answered: those the pods tell, and an unknown one for
      each container that too few pods showed. */
  lemma EntriesOnResources(resources: seq<Resource>, e: string)
    requires PlanOf(resources).Some?
    ensures var plan := PlanOf(resources).value;
            e in Entries(plan, ReportOf(plan, resources)) <==>
              (exists p :: p in resources && PodTells(resources, p, e)) || SomeLacks(resources, e)
  {
    var plan := PlanOf(resources).value;
    EntriesExactly(plan, resources, e);
    forall p ensures PodTells(resources, p, e) <==> PodAdds(plan, p, e) {
      PodTellsOnResources(resources, p, e);
    }
    MissingOnResources(resources, e);
    UnknownEntries(Missing(plan, ReportOf(plan, resources).counts), e);
  }

  /** An answer that names no usable Deployment: one is malformed, or there is none. */
  predicate NothingToSee(resources: seq<Resource>) {
    (exists r :: r in resources && !WellFormed(r)) || forall r :: r in resources ==> !r.Deployment?
  }

  lemma NothingPlanned(resources: seq<Resource>)
    ensures NothingToSee(resources) <==> PlanOf(resources).None? || PlanOf(resources).value.deployments == map[]
  {
    PlanIsUsable(resources);
    if PlanOf(resources).Some? {
      if r :| r in resources && r.Deployment? {
        PlanIsTheLastDeployments(resources, r.name, "");
        assert IsDeployment(r, r.name);
        var j :| 0 <= j < |resources| && resources[j] == r;
      }
      if d :| d in PlanOf(resources).value.deployments {
        PlanIsTheLastDeployments(resources, d, "");
        assert resources[LastDeployment(resources, d)] in resources;
      }
    }
  }

  // -- the rendered value ---------------------------------------------------------------------

  const MAX_LENGTH := 4096
  const MARKER := "...[truncated]"
  const PREFIX_LIMIT := MAX_LENGTH - |MARKER| - 1

  datatype Capture = Capture(imageIds: string, complete: string)

  const UNKNOWN := Capture("unknown", "unknown")

  function Joined(entries: seq<string>): string {
    Join(entries, ";")
  }

  function WithMarker(entries: seq<string>): string {
    Join(entries + [MARKER], ";")
  }

  lemma MarkerAdds(entries: seq<string>)
    ensures |WithMarker(entries)| == |Joined(entries)| + |MARKER| + if entries == [] then 0 else 1
  {
    var all := entries + [MARKER];
    assert Front(all) == entries && Last(all) == MARKER;
    if entries != [] {
      JoinLast(all, ";");
    }
  }

  /** The greedy prefix: as many entries, from position k, as stay within the limit. */
  function Prefix(all: seq<string>, k: nat): (n: nat)
    requires k <= |all|
    ensures k <= n <= |all|
    decreases |all| - k
  {
    if k < |all| && |Joined(all[..k + 1])| <= PREFIX_LIMIT then Prefix(all, k + 1) else k
  }

  function Render(all: seq<string>, complete: bool): Capture {
    if |Joined(all)| <= MAX_LENGTH then
      Capture(if Joined(all) == "" then "unknown" else Joined(all), if complete then "true" else "false")
    else
      Capture(WithMarker(all[..Prefix(all, 0)]), "false")
  }

  lemma JoinedStep(all: seq<string>, k: nat)
    requires k < |all|
    ensures |Joined(all[..k + 1])| == |Joined(all[..k])| + |all[k]| + (if k > 0 then 1 else 0)
  {
    assert Front(all[..k + 1]) == all[..k] && Last(all[..k + 1]) == all[k];
    if k == 0 {
      assert all[..1] == [all[0]];
    } else {
      JoinLast(all[..k + 1], ";");
    }
  }

  lemma {:induction false} LongerIsLonger(all: seq<string>, k: nat, n: nat)
    requires k <= n <= |all|
    ensures |Joined(all[..k])| <= |Joined(all[..n])|
    decreases n
  {
    if k < n {
      JoinedStep(all, n - 1);
      LongerIsLonger(all, k, n - 1);
    }
  }

  lemma {:induction false} GreedyPrefix(all: seq<string>, k: nat)
    requires k <= |all| && |Joined(all[..k])| <= PREFIX_LIMIT
    ensures var n := Prefix(all, k);
            && |Joined(all[..n])| <= PREFIX_LIMIT
            && (n < |all| ==> |Joined(all[..n + 1])| > PREFIX_LIMIT)
    decreases |all| - k
  {
    if k < |all| && |Joined(all[..k + 1])| <= PREFIX_LIMIT {
      GreedyPrefix(all, k + 1);
    }
  }

  /** A prefix of the entries fits, with the marker, into the value. */
  predicate Fits(all: seq<string>, n: nat)
    requires n <= |all|
  {
    |WithMarker(all[..n])| <= 4096
  }

  lemma {:induction false} JoinedHolds(all: seq<string>, e: string)
    requires e in all
    ensures |Joined(all)| >= |e|
  {
    if |all| > 1 && e in all[1..] {
      JoinedHolds(all[1..], e);
    }
  }

  /** The value is never longer than the limit, and when it is cut it is the longest prefix
      of the entries that fits with the marker: it does, and no longer one does. */
  lemma RenderedValue(all: seq<string>, complete: bool)
    ensures |Render(all, complete).imageIds| <= 4096
    ensures Render(all, complete).imageIds != ""
    ensures |Joined(all)| <= 4096 && (exists e :: e in all && e != "") ==>
              Render(all, complete) == Capture(Join(all, ";"), if complete then "true" else "false")
    ensures |Joined(all)| > 4096 ==>
              && Render(all, complete).complete == "false"
              && exists n :: 0 <= n < |all| && Fits(all, n)
                          && Render(all, complete).imageIds == Join(all[..n] + ["...[truncated]"], ";")
                          && forall m :: n < m <= |all| ==> !Fits(all, m)
  {
    if |Joined(all)| > MAX_LENGTH {
      assert all[..0] == [] && all[..|all|] == all;
      GreedyPrefix(all, 0);
      var n := Prefix(all, 0);
      assert n < |all|;
      MarkerAdds(all[..n]);
      forall m | n < m <= |all| ensures !Fits(all, m) {
        LongerIsLonger(all, n + 1, m);
        MarkerAdds(all[..m]);
      }
    } else if e :| e in all && e != "" {
      JoinedHolds(all, e);
    }
  }

  // -- the whole capture ------------------------------------------------------------------------

  /** Code-point order, as `sorted` compares strings. */
  predicate TextLess(a: string, b: string) {
    b != "" && (a == "" || a[0] < b[0] || (a[0] == b[0] && TextLess(a[1..], b[1..])))
  }

  predicate Increasing(all: seq<string>) {
    forall i, j :: 0 <= i < j < |all| ==> TextLess(all[i], all[j])
  }

  ghost predicate SortingOf(all: seq<string>, entries: set<string>) {
    Increasing(all) && forall e :: e in all <==> e in entries
  }

  lemma {:induction false} TextLessTransitive(a: string, b: string, c: string)
    requires TextLess(a, b) && TextLess(b, c)
    ensures TextLess(a, c)
  {
    if a != "" && a[0] == b[0] == c[0] {
      TextLessTransitive(a[1..], b[1..], c[1..]);
    }
  }

  lemma {:induction false} TextLessTotal(a: string, b: string)
    ensures a == b || TextLess(a, b) || TextLess(b, a)
  {
    if a != "" && b != "" && a[0] == b[0] {
      TextLessTotal(a[1..], b[1..]);
      assert a == [a[0]] + a[1..] && b == [b[0]] + b[1..];
    }
  }

  /** `sorted` over the set of entries. */
  method SortEntries(entries: set<string>) returns (all: seq<string>)
    ensures SortingOf(all, entries)
  {
    all := [];
    var left := entries;
    while left != {}
      invariant left <= entries && SortingOf(all, entries - left)
      decreases |left|
    {
      var e: string :| e in left;
      left := left - {e};
      all := Inserted(all, e);
      assert entries - left == (entries - (left + {e})) + {e};
    }
    assert entries - left == entries;
  }

  method Inserted(all: seq<string>, e: string) returns (after: seq<string>)
    requires Increasing(all) && e !in all
    ensures Increasing(after) && forall x :: x in after <==> x in all || x == e
  {
    var k := 0;
    while k < |all| && TextLess(all[k], e)
      invariant 0 <= k <= |all|
      invariant forall i :: 0 <= i < k ==> TextLess(all[i], e)
    {
      k := k + 1;
    }
    if k < |all| {
      TextLessTotal(e, all[k]);
      forall j | k < j < |all| ensures TextLess(e, all[j]) {
        TextLessTransitive(e, all[k], all[j]);
      }
    }
    after := all[..k] + [e] + all[k..];
    assert forall x :: x in all <==> x in all[..k] || x in all[k..];
  }

  /** `osac_image_ids`: two walks over the resources, the missing replicas, the value. The
      answer is "unknown" exactly when it names no usable Deployment; otherwise the flag
      reads "true" exactly for an untruncated value of a cluster that was wholly seen. */
  method OsacImageIds(answer: Option<seq<Resource>>) returns (capture: Capture, ghost all: seq<string>)
    ensures |capture.imageIds| <= 4096 && capture.imageIds != ""
    ensures answer.None? || NothingToSee(answer.value) <==> capture.complete == "unknown"
    ensures answer.None? || NothingToSee(answer.value) ==> capture == UNKNOWN
    ensures answer.Some? && !NothingToSee(answer.value) ==>
              PlanOf(answer.value).Some? &&
              (var plan := PlanOf(answer.value).value;
               var r := ReportOf(plan, answer.value);
               && Increasing(all) && capture == Render(all, AllSeen(plan, r))
               && (forall e :: e in all <==>
                     (exists p :: p in answer.value && PodTells(answer.value, p, e)) || SomeLacks(answer.value, e))
               && (capture.complete == "true" <==> |Joined(all)| <= 4096 && WhollySeen(answer.value))
               && (capture.complete == "true" ==>
                     ((exists e :: e in all && SaysUnknown(e)) <==> ReportsUnknown(plan, answer.value, "unknown"))))
  {
    all := [];
    if answer.None? {
      return UNKNOWN, all;
    }
    var resources := answer.value;
    var planned := CollectPlan(resources);
    NothingPlanned(resources);
    if planned.None? || planned.value.deployments == map[] {
      return UNKNOWN, all;
    }
    var plan := planned.value;
    var r := CollectReport(plan, resources);
    var entries := SortEntries(Entries(plan, r));
    all := entries;
    assert forall e :: e in all <==> e in Entries(plan, r);
    var complete := AllSeen(plan, r);
    AllSeenOnResources(resources);
    forall e ensures e in all <==> (exists p :: p in resources && PodTells(resources, p, e)) || SomeLacks(resources, e) {
      EntriesOnResources(resources, e);
    }
    if complete {
      NoUnknownExactlyWhen(plan, resources, "unknown");
    }
    RenderedValue(entries, complete);
    if |Joined(entries)| <= MAX_LENGTH {
      capture := Capture(if Joined(entries) == "" then "unknown" else Joined(entries), if complete then "true" else "false");
      return;
    }
    var kept := TakePrefix(entries);
    capture := Capture(WithMarker(kept), "false");
  }

  method CollectPlan(resources: seq<Resource>) returns (plan: Option<Plan>)
    ensures plan == PlanOf(resources)
  {
    plan := Some(Plan(map[], map[]));
    for i := 0 to |resources|
      invariant plan.Some? && plan == PlanOf(resources[..i])
    {
      assert Front(resources[..i + 1]) == resources[..i];
      plan := PlanResource(plan.value, resources[i]);
      if plan.None? {
        NoPlanStays(resources, i + 1);
        return;
      }
    }
    assert resources[..|resources|] == resources;
  }

  lemma {:induction false} NoPlanStays(resources: seq<Resource>, i: nat)
    requires i <= |resources| && PlanOf(resources[..i]).None?
    ensures PlanOf(resources).None?
    decreases |resources|
  {
    if i < |resources| {
      assert Front(resources)[..i] == resources[..i];
      NoPlanStays(Front(resources), i);
    } else {
      assert resources[..i] == resources;
    }
  }

  method CollectReport(plan: Plan, resources: seq<Resource>) returns (r: Report)
    ensures r == ReportOf(plan, resources)
  {
    r := NOTHING;
    for i := 0 to |resources|
      invariant r == ReportOf(plan, resources[..i])
    {
      assert Front(resources[..i + 1]) == resources[..i];
      var pod := resources[i];
      if !Observed(plan, pod) {
        continue;
      }
      if pod.statuses.None? {
        r := r.(complete := false);
        continue;
      }
      var statuses, deployment := pod.statuses.value, DeploymentOf(plan, pod);
      ghost var before := r;
      var seen: set<string> := {};
      for k := 0 to |statuses|
        invariant seen == Shown(statuses[..k])
        invariant r == ReportStatuses(before, deployment, statuses[..k])
      {
        assert Front(statuses[..k + 1]) == statuses[..k];
        ShownStep(statuses[..k + 1]);
        r := ReportStatus(r, deployment, seen, statuses[k]);
        if GoodStatus(statuses[k]) {
          seen := seen + {statuses[k].name.value};
        }
      }
      assert statuses[..|statuses|] == statuses;
    }
    assert resources[..|resources|] == resources;
  }

  /** The greedy loop with its running length. */
  method TakePrefix(all: seq<string>) returns (kept: seq<string>)
    ensures kept == all[..Prefix(all, 0)]
  {
    kept := [];
    var total, k := 0, 0;
    while k < |all|
      invariant 0 <= k <= |all| && kept == all[..k] && total == |Joined(kept)|
      invariant Prefix(all, 0) == Prefix(all, k)
    {
      var length := |all[k]| + if kept != [] then 1 else 0;
      JoinedStep(all, k);
      if total + length > PREFIX_LIMIT {
        return;
      }
      kept := kept + [all[k]];
      total := total + length;
      k := k + 1;
    }
  }

  // -- "complete" and an unknown entry at once ------------------------------------------------------

  /** A cluster of one deployment with one running pod. */
  function OnePod(d: string, c: string, rs: string, id: string): seq<Resource> {
    [Deployment(d, Some(1), Some([Spec(Some(c))])), ReplicaSet(rs, d), Pod(true, rs, Some([Status(Some(c), Some(id))]))]
  }

  lemma OneContainer(c: string)
    requires Usable(Some(c))
    ensures ContainerNames([Spec(Some(c))]) == Some({c})
  {
    var specs := [Spec(Some(c))];
    assert Front(specs) == [] && ContainerNames([]) == Some({});
    assert {} + {c} == {c};
  }

  lemma OnePodPlan(d: string, c: string, rs: string, id: string)
    requires d != "" && SafePart(Some(d)) == d && Usable(Some(c))
    ensures PlanOf(OnePod(d, c, rs, id)) == Some(Plan(map[d := Expected(1, {c})], map[rs := d]))
  {
    var all := OnePod(d, c, rs, id);
    OneContainer(c);
    PlanStep(all, 0);
    PlanStep(all, 1);
    PlanStep(all, 2);
    assert all[..0] == [] && all[..3] == all;
  }

  lemma PlanStep(all: seq<Resource>, k: nat)
    requires k < |all|
    ensures PlanOf(all[..k + 1]) ==
            if PlanOf(all[..k]).None? then None else PlanResource(PlanOf(all[..k]).value, all[k])
  {
    assert Front(all[..k + 1]) == all[..k] && Last(all[..k + 1]) == all[k];
  }

  /** Any usable id completes such a cluster, and its entry is in the value. */
  lemma OnePodIsComplete(d: string, c: string, rs: string, id: string)
    requires d != "" && SafePart(Some(d)) == d && Usable(Some(c)) && Usable(Some(id))
    ensures var plan := PlanOf(OnePod(d, c, rs, id));
            plan.Some? && plan.value.deployments != map[] &&
            (var r := ReportOf(plan.value, OnePod(d, c, rs, id));
             AllSeen(plan.value, r) && Entry(Slot(d, c), id) in Entries(plan.value, r))
  {
    OnePodPlan(d, c, rs, id);
    var all, plan := OnePod(d, c, rs, id), Plan(map[d := Expected(1, {c})], map[rs := d]);
    ReportStep(plan, all, 0);
    ReportStep(plan, all, 1);
    ReportStep(plan, all, 2);
    assert all[..0] == [] && all[..3] == all;
    OneStatus(d, c, id);
    var r := ReportOf(plan, all);
    assert r == ReportPod(plan, NOTHING, all[2]);
    assert r.entries == {Entry(Slot(d, c), id)} && r.complete;
    assert CountOf(r.counts, Slot(d, c)) == 1 && d in plan.deployments;
    assert Missing(plan, r.counts) == {};
  }

  lemma ReportStep(plan: Plan, all: seq<Resource>, k: nat)
    requires k < |all|
    ensures ReportOf(plan, all[..k + 1]) == ReportPod(plan, ReportOf(plan, all[..k]), all[k])
  {
    assert Front(all[..k + 1]) == all[..k] && Last(all[..k + 1]) == all[k];
  }

  lemma OneStatus(d: string, c: string, id: string)
    requires Usable(Some(c)) && Usable(Some(id))
    ensures ReportStatuses(NOTHING, d, [Status(Some(c), Some(id))]) ==
            Report({Entry(Slot(d, c), id)}, map[Slot(d, c) := 1], true)
  {
    var status := Status(Some(c), Some(id));
    assert Front([status]) == [] && Shown([]) == {};
    assert ReportStatuses(NOTHING, d, [status]) == ReportStatus(NOTHING, d, {}, status);
  }

  /** "unknown" is usable text: a pod that reports it as its image id gives a complete
      capture with an unknown entry. */
  lemma CompleteWithUnknown(d: string, c: string, rs: string, id: string)
    requires d != "" && SafePart(Some(d)) == d && Usable(Some(c)) && id == "unknown"
    ensures var plan := PlanOf(OnePod(d, c, rs, id));
            plan.Some? && plan.value.deployments != map[] &&
            (var r := ReportOf(plan.value, OnePod(d, c, rs, id));
             AllSeen(plan.value, r) && Entry(Slot(d, c), id) in Entries(plan.value, r))
  {
    UnknownIsUsable(id);
    OnePodIsComplete(d, c, rs, id);
  }
}
