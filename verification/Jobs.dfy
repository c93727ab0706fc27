/** Kubernetes Jobs as the operator sees them: their metadata, and how new ones are built. */
module Jobs {
  import opened Wrappers
  import opened Calendar
  import opened JobNaming

  /** What parsing an annotation's text gives. */
  datatype Reading<+T> = Absent | Unreadable | Reads(value: T)

  /** The operator's own annotations. A missing hash or reason is the empty string. */
  datatype Annotations = Annotations(
    scheduledAt: Reading<Instant>, runId: Reading<int>, manual: Reading<bool>,
    templateHash: string, suspendReason: string)

  datatype ConditionStatus = True | False | Unknown

  datatype JobConditionType = Complete | Failed | OtherJobCondition(name: string)

  datatype JobCondition = JobCondition(ctype: JobConditionType, status: ConditionStatus)

  datatype Job = Job(
    name: string,
    annotations: Annotations,
    suspend: Option<bool>,
    deletionTimestamp: Option<Instant>,
    conditions: seq<JobCondition>,
    ready: Option<int>,
    active: int)

  /** The job template of a ControlledJob; its hash leaves the suspend flag out. */
  datatype JobTemplate = JobTemplate(annotations: Annotations, suspend: Option<bool>, hash: string)

  const USER_STOP := "user-stop"

  predicate IsManuallyScheduled(j: Job) { j.annotations.manual == Reads(true) }

  /** The condition is there with status true. */
  predicate HasCondition(j: Job, ctype: JobConditionType) {
    JobCondition(ctype, True) in j.conditions
  }

  predicate IsCompleted(j: Job) { HasCondition(j, Complete) || HasCondition(j, Failed) }

  predicate IsPotentiallyRunning(j: Job) { !IsCompleted(j) }

  predicate IsBeingDeleted(j: Job) { j.deletionTimestamp.Some? }

  predicate IsSuspended(j: Job) { j.suspend == Some(true) }

  predicate WasStoppedByTheUser(j: Job) { IsSuspended(j) && j.annotations.suspendReason == USER_STOP }

  predicate IsRunning(j: Job) {
    if IsCompleted(j) then false
    else match j.ready
      case Some(n) => n > 0
      case None => j.active > 0
  }

  // The builder

  function BuildJob(owner: string, template: JobTemplate, scheduledTime: Instant, runId: int,
                    manual: bool, startSuspended: bool): Job
  {
    Job(
      JobName(owner, scheduledTime, runId),
      Annotations(
        Reads(scheduledTime), Reads(runId),
        if manual then Reads(true) else template.annotations.manual,
        template.hash, template.annotations.suspendReason),
      if startSuspended then Some(true) else template.suspend,
      None, [], None, 0)
  }

  /** buildJob: the template's annotations are copied first and the operator's own
      written over them. */
  method NewJob(owner: string, template: JobTemplate, scheduledTime: Instant, runId: int,
                manual: bool, startSuspended: bool) returns (job: Job)
    ensures job == BuildJob(owner, template, scheduledTime, runId, manual, startSuspended)
  {
    var name := JobName(owner, scheduledTime, runId);
    var annotations := template.annotations;
    annotations := annotations.(scheduledAt := Reads(scheduledTime));
    annotations := annotations.(runId := Reads(runId));
    annotations := annotations.(templateHash := template.hash);
    if manual {
      annotations := annotations.(manual := Reads(true));
    }
    job := Job(name, annotations, template.suspend, None, [], None, 0);
    if startSuspended {
      job := job.(suspend := Some(true));
    }
  }

  /** A built job has the user's flags of the template, except that the operator may start
      it suspended and mark it as manual; nothing has happened to it yet. */
  lemma BuiltFromTemplate(owner: string, template: JobTemplate, scheduledTime: Instant, runId: int,
                          manual: bool, startSuspended: bool)
    ensures var j := BuildJob(owner, template, scheduledTime, runId, manual, startSuspended);
      && (IsSuspended(j) <==> startSuspended || template.suspend == Some(true))
      && (IsManuallyScheduled(j) <==> manual || template.annotations.manual == Reads(true))
      && (!manual ==> j.annotations.manual == template.annotations.manual)
      && (!startSuspended ==> j.suspend == template.suspend)
      && j.annotations.suspendReason == template.annotations.suspendReason && j.annotations.templateHash == template.hash
      && j.annotations.scheduledAt == Reads(scheduledTime) && j.annotations.runId == Reads(runId)
      && !IsCompleted(j) && !IsBeingDeleted(j) && !IsRunning(j)
  {
  }

  /** RecreateJobWithNewSpec: None when the old job's scheduled time is unreadable. */
  function RecreateJob(existing: Job, owner: string, template: JobTemplate, runId: int, startSuspended: bool): Option<Job> {
    match existing.annotations.scheduledAt
    case Reads(t) => Some(BuildJob(owner, template, t, runId, IsManuallyScheduled(existing), startSuspended))
    case _ => None
  }

  /** Go's + 1 on a 64-bit int. */
  function NextInt64(x: int): int {
    if x == MAX_INT64 then MIN_INT64 else x + 1
  }

  // Names in a cluster

  ghost predicate DistinctNames(jobs: seq<Job>) {
    forall i, j | 0 <= i < j < |jobs| :: jobs[i].name != jobs[j].name
  }

  /** Go's > on strings: the first difference decides, and a proper prefix is less. */
  predicate IsGreater(a: string, b: string) {
    if a == "" then false
    else if b == "" then true
    else if a[0] != b[0] then a[0] > b[0]
    else IsGreater(a[1..], b[1..])
  }

  lemma {:induction false} GreaterIsTotal(a: string, b: string)
    ensures a == b ==> !IsGreater(a, b)
    ensures a != b ==> (IsGreater(a, b) <==> !IsGreater(b, a))
  {
    if a != "" && b != "" {
      assert a == [a[0]] + a[1..] && b == [b[0]] + b[1..];
      GreaterIsTotal(a[1..], b[1..]);
    }
  }

  lemma {:induction false} GreaterIsTransitive(a: string, b: string, c: string)
    requires IsGreater(a, b) && IsGreater(b, c)
    ensures IsGreater(a, c)
  {
    if b != "" && c != "" && a[0] == b[0] == c[0] {
      GreaterIsTransitive(a[1..], b[1..], c[1..]);
    }
  }
}
