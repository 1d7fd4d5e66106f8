/** The health endpoint of `backend/api/status.py`: three fixed checks, the disk-space
    thresholds and the "worst status wins" roll-up. The database and disk probes are inputs:
    whether the probe query succeeded, and the free bytes (`None` when the probe failed). */
module Status {
  import opened Wrappers

  datatype Health = Healthy | Degraded | Unhealthy

  /** How bad a status is; a larger rank is worse. */
  function Rank(h: Health): (n: nat)
    ensures n <= 2
    ensures n == 0 <==> h == Healthy
    ensures n == 2 <==> h == Unhealthy
  {
    match h
    case Healthy => 0
    case Degraded => 1
    case Unhealthy => 2
  }

  datatype Check = Check(name: string, status: Health)

  const MiB := 1048576

  /** The disk check on the free bytes: above 100 MiB healthy, above 10 MiB degraded, and
      otherwise, or when the probe failed, unhealthy. */
  function DiskHealth(free: Option<int>): (h: Health)
    ensures free.None? ==> h == Unhealthy
    ensures free.Some? ==> (h == Healthy <==> free.value > 100 * MiB)
    ensures free.Some? ==> (h == Degraded <==> 10 * MiB < free.value <= 100 * MiB)
    ensures free.Some? ==> (h == Unhealthy <==> free.value <= 10 * MiB)
  {
    match free
    case None => Unhealthy
    case Some(bytes) =>
      if bytes > 100 * MiB then Healthy else if bytes > 10 * MiB then Degraded else Unhealthy
  }

  /** More free space never makes the disk check worse. */
  lemma DiskMonotone(a: int, b: int)
    requires a <= b
    ensures Rank(DiskHealth(Some(b))) <= Rank(DiskHealth(Some(a)))
  {
  }

  /** The roll-up: unhealthy if any check is, else degraded if any check is, else healthy.
      So it is the worst of the checks: never better than any of them, and no worse than all
      of them (it is one of them, or healthy when there are none). */
  function Overall(checks: seq<Check>): (h: Health)
    ensures forall i :: 0 <= i < |checks| ==> Rank(checks[i].status) <= Rank(h)
    ensures h == Healthy || exists i :: 0 <= i < |checks| && checks[i].status == h
  {
    if exists i :: 0 <= i < |checks| && checks[i].status == Unhealthy then Unhealthy
    else if exists i :: 0 <= i < |checks| && checks[i].status == Degraded then Degraded
    else Healthy
  }

  /** `system_status`: the database check, the API-key check and the disk check, appended in
      that order, and the overall status rolled up from them. */
  method SystemStatus(databaseReachable: bool, apiKey: string, freeBytes: Option<int>)
    returns (checks: seq<Check>, overall: Health)
    ensures |checks| == 3
    ensures checks[0] == Check("database", if databaseReachable then Healthy else Unhealthy)
    ensures checks[1] == Check("anthropic_api_key", if apiKey != [] then Healthy else Unhealthy)
    ensures checks[2] == Check("disk_space", DiskHealth(freeBytes))
    ensures overall == Overall(checks)
  {
    checks := [];
    if databaseReachable {
      checks := checks + [Check("database", Healthy)];
    } else {
      checks := checks + [Check("database", Unhealthy)];
    }
    if apiKey != [] {
      checks := checks + [Check("anthropic_api_key", Healthy)];
    } else {
      checks := checks + [Check("anthropic_api_key", Unhealthy)];
    }
    match freeBytes {
      case None =>
        checks := checks + [Check("disk_space", Unhealthy)];
      case Some(bytes) =>
        if bytes > 100 * MiB {
          checks := checks + [Check("disk_space", Healthy)];
        } else if bytes > 10 * MiB {
          checks := checks + [Check("disk_space", Degraded)];
        } else {
          checks := checks + [Check("disk_space", Unhealthy)];
        }
    }
    var statuses := seq(|checks|, i requires 0 <= i < |checks| => checks[i].status);
    assert statuses == [checks[0].status, checks[1].status, checks[2].status];
    if Unhealthy in statuses {
      overall := Unhealthy;
    } else if Degraded in statuses {
      overall := Degraded;
    } else {
      overall := Healthy;
    }
  }

  /** A missing API key alone makes the whole system unhealthy. */
  lemma MissingKeyIsUnhealthy(checks: seq<Check>)
    requires |checks| == 3 && checks[1] == Check("anthropic_api_key", Unhealthy)
    ensures Overall(checks) == Unhealthy
  {
    assert checks[1].status == Unhealthy;
  }

  /** All three checks healthy is the only way to a healthy system. */
  lemma HealthyExactly(checks: seq<Check>)
    ensures Overall(checks) == Healthy <==> forall i :: 0 <= i < |checks| ==> checks[i].status == Healthy
  {
    if forall i :: 0 <= i < |checks| ==> checks[i].status == Healthy {
      assert !exists i :: 0 <= i < |checks| && checks[i].status == Unhealthy;
    }
  }
}
