/** The host grants "A" only; the user then grants "B" and denies "C". */
module PermissionScenarios {
  import opened Nullable
  import opened Results
  import opened Partition
  import opened PermissionManagers

  /**
   * Checking A, B, C splits them into [A] and [B, C]; requesting if needed
   * asks the host for [B, C] only, and the caller finally receives [B]
   * allowed and [C] blocked: the earlier grant of A is not merged in.
   */
  method GrantOnlyA(listener: ListenerId)
    returns (checked: seq<Delivery>, requests: seq<HostRequest>, delivered: seq<Delivery>)
    ensures checked == [CheckDelivered(listener, CheckResult(["A"], ["B", "C"]))]
    ensures requests == [HostRequest(["B", "C"], REQUEST_CODE)]
    ensures delivered == [RequestDelivered(listener, RequestResult(["B"], ["C"]))]
  {
    var status := (p: Permission) => if p == "A" then GRANTED else DENIED;
    var abc: seq<Permission> := ["A", "B", "C"];
    assert StatusCodes(abc, status) == [GRANTED, DENIED, DENIED];
    assert abc[1..] == ["B", "C"] && abc[1..][1..] == ["C"];
    assert Checked(abc, status) == CheckResult(["A"], ["B", "C"]);
    var first := new PermissionManager();
    first.Check(["A", "B", "C"], status, Some(listener));
    checked := first.deliveries;
    var manager := new PermissionManager();
    manager.RequestIfNeeded(["A", "B", "C"], status, Some(listener));
    var bc: seq<Permission> := ["B", "C"];
    assert bc[1..] == ["C"];
    assert Response(bc, [GRANTED, DENIED]) == RequestResult(["B"], ["C"]);
    var handled := manager.OnRequestPermissionsResult(REQUEST_CODE, ["B", "C"], [GRANTED, DENIED]);
    requests, delivered := manager.hostRequests, manager.deliveries;
  }
}
