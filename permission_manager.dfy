/**
 * PermissionManager: the coordinator of runtime-permission checks and
 * requests.  Its state is the kill switch `enabled`, the flag
 * `waitingForResponse` and the single pending request listener.
 *
 * The host activity is replaced by two abstractions: its status query
 * `checkSelfPermission` is the function `status`, and each call of its
 * `requestPermissions` is appended to the log `hostRequests`.  Every
 * invocation of a caller's listener is appended to the log `deliveries`;
 * listeners themselves are identified by number.
 */
module PermissionManagers {
  import opened Nullable
  import opened Results
  import opened Partition

  /** The fixed request code the manager tags its host requests with: Java's `Integer.MAX_VALUE`. */
  const REQUEST_CODE: int := 0x7FFF_FFFF

  /** Identity of a caller-supplied listener object. */
  type ListenerId = nat

  /**
   * An `OnRequestListener` the manager may hold as pending: one a caller
   * passed to `request`, or the wrapper `requestIfNeeded` creates around its
   * caller's (possibly null) listener, which captures the allowed half of
   * the preceding check.
   */
  datatype RequestListener =
    | Caller(id: ListenerId)
    | Forwarder(target: Option<ListenerId>, checkAllowed: seq<Permission>)

  /** One call of the host's `requestPermissions`. */
  datatype HostRequest = HostRequest(permissions: seq<Permission>, requestCode: int)

  /** One invocation of a caller's listener, with the result it received. */
  datatype Delivery =
    | CheckDelivered(to: ListenerId, checkResult: CheckResult)
    | RequestDelivered(to: ListenerId, requestResult: RequestResult)

  /**
   * The deliveries that invoking `listener` with `result` makes: a caller's
   * listener receives the result; the wrapper of `requestIfNeeded` builds a
   * fresh result from the same two sequences and passes it on to its target,
   * if that is not null.  The captured allowed list plays no part.
   */
  function Notified(listener: RequestListener, result: RequestResult): (notified: seq<Delivery>) {
    match listener
    case Caller(id) => [RequestDelivered(id, result)]
    case Forwarder(target, _) =>
      if target.Some? then [RequestDelivered(target.value, RequestResult(result.allowedPermissions, result.blockedPermissions))]
      else []
  }

  /** The wrapper hands its target the request's own result, unchanged and not merged with the check's. */
  lemma ForwarderPassesResultThrough(target: Option<ListenerId>, checkAllowed: seq<Permission>, result: RequestResult)
    ensures Notified(Forwarder(target, checkAllowed), result)
         == if target.Some? then [RequestDelivered(target.value, result)] else []
    ensures Notified(Forwarder(target, checkAllowed), result) == Notified(Forwarder(target, []), result)
  {
  }

  /** The split `check` computes (the loop over the permissions and the two result arrays). */
  method CheckStatuses(permissions: seq<Permission>, status: Permission -> int) returns (result: CheckResult)
    ensures result == Checked(permissions, status)
  {
    var allowed: seq<Permission> := [];
    var blocked: seq<Permission> := [];
    ghost var codes := StatusCodes(permissions, status);
    for i := 0 to |permissions|
      invariant allowed == Keep(permissions[..i], codes, true)
      invariant blocked == Keep(permissions[..i], codes, false)
    {
      var checkResult := status(permissions[i]);
      KeepSnoc(permissions, codes, i, true);
      KeepSnoc(permissions, codes, i, false);
      if IsGranted(checkResult) {
        allowed := allowed + [permissions[i]];
      } else {
        blocked := blocked + [permissions[i]];
      }
    }
    assert permissions[..|permissions|] == permissions;
    result := CheckResult(allowed, blocked);
  }

  /** The split `onRequestPermissionsResult` computes from the parallel arrays. */
  method SplitResults(permissions: seq<Permission>, results: seq<int>) returns (result: RequestResult)
    requires |permissions| <= |results|
    ensures result == Response(permissions, results)
  {
    var allowed: seq<Permission> := [];
    var blocked: seq<Permission> := [];
    for i := 0 to |permissions|
      invariant allowed == Keep(permissions[..i], results, true)
      invariant blocked == Keep(permissions[..i], results, false)
    {
      KeepSnoc(permissions, results, i, true);
      KeepSnoc(permissions, results, i, false);
      if IsGranted(results[i]) {
        allowed := allowed + [permissions[i]];
      } else {
        blocked := blocked + [permissions[i]];
      }
    }
    assert permissions[..|permissions|] == permissions;
    result := RequestResult(allowed, blocked);
  }

  class PermissionManager {
    var enabled: bool
    var waitingForResponse: bool
    var onRequestListener: Option<RequestListener>

    /** Every `requestPermissions` call made on the host, in order. */
    var hostRequests: seq<HostRequest>
    /** Every invocation of a caller's listener, in order. */
    var deliveries: seq<Delivery>

    /**
     * What the manager's own operations keep true: every host request carries
     * REQUEST_CODE, and a pending response or a pending listener implies a
     * host request was made.
     */
    ghost predicate Valid()
      reads this
    {
      && (forall r :: r in hostRequests ==> r.requestCode == REQUEST_CODE)
      && (waitingForResponse ==> hostRequests != [])
      && (onRequestListener.Some? ==> hostRequests != [])
    }

    constructor ()
      ensures Valid()
      ensures enabled && !waitingForResponse && onRequestListener == None
      ensures hostRequests == [] && deliveries == []
    {
      waitingForResponse := false;
      enabled := true;
      onRequestListener := None;
      hostRequests := [];
      deliveries := [];
    }

    method IsWaitingForResponse() returns (waiting: bool)
      ensures waiting == waitingForResponse
    {
      waiting := waitingForResponse;
    }

    method IsEnabled() returns (on: bool)
      ensures on == enabled
    {
      on := enabled;
    }

    method SetEnabled(on: bool)
      requires Valid()
      modifies this`enabled
      ensures Valid() && enabled == on
    {
      enabled := on;
    }

    /**
     * Splits `permissions` by the host's status and hands the result to
     * `listener` once, if there is one; nothing at all happens when disabled.
     * The manager's own fields are not touched (only the delivery log may grow).
     */
    method Check(permissions: seq<Permission>, status: Permission -> int, listener: Option<ListenerId>)
      requires Valid()
      modifies this`deliveries
      ensures Valid()
      ensures !enabled ==> deliveries == old(deliveries)
      ensures enabled ==>
        deliveries == old(deliveries) +
          (if listener.Some? then [CheckDelivered(listener.value, Checked(permissions, status))] else [])
    {
      if !enabled {
        return;
      }
      var checkResult := CheckStatuses(permissions, status);
      if listener.Some? {
        deliveries := deliveries + [CheckDelivered(listener.value, checkResult)];
      }
    }

    /**
     * Stores `listener` as the pending one, overwriting any earlier one
     * unresolved, asks the host for `permissions` under REQUEST_CODE and
     * waits for the response; nothing at all happens when disabled.
     */
    method Request(permissions: seq<Permission>, listener: Option<RequestListener>)
      requires Valid()
      modifies this
      ensures Valid()
      ensures !old(enabled) ==> unchanged(this)
      ensures old(enabled) ==>
        && onRequestListener == listener
        && hostRequests == old(hostRequests) + [HostRequest(permissions, REQUEST_CODE)]
        && waitingForResponse
        && enabled && deliveries == old(deliveries)
    {
      if !enabled {
        return;
      }
      onRequestListener := listener;
      hostRequests := hostRequests + [HostRequest(permissions, REQUEST_CODE)];
      waitingForResponse := true;
    }

    /**
     * Checks `permissions`; if none is blocked, hands `listener` (if any) the
     * check's two lists at once as a request result, without asking the host.
     * Otherwise requests exactly the blocked ones, in order, leaving pending a
     * wrapper that will pass the response's own split on to `listener`.
     * Nothing at all happens when disabled.
     */
    method RequestIfNeeded(permissions: seq<Permission>, status: Permission -> int, listener: Option<ListenerId>)
      requires Valid()
      modifies this
      ensures Valid()
      ensures !old(enabled) ==> unchanged(this)
      ensures old(enabled) ==> enabled
      ensures old(enabled) ==>
        var checked := Checked(permissions, status);
        if checked.blockedPermissions == [] then
          && hostRequests == old(hostRequests)
          && waitingForResponse == old(waitingForResponse)
          && onRequestListener == old(onRequestListener)
          && deliveries == old(deliveries) +
               (if listener.Some?
                then [RequestDelivered(listener.value, RequestResult(checked.allowedPermissions, []))]
                else [])
        else
          && hostRequests == old(hostRequests) + [HostRequest(checked.blockedPermissions, REQUEST_CODE)]
          && waitingForResponse
          && onRequestListener == Some(Forwarder(listener, checked.allowedPermissions))
          && deliveries == old(deliveries)
    {
      if !enabled {
        return;
      }
      // `check` hands its result to the continuation below exactly once,
      // since the manager is enabled and the continuation is not null.
      var checkResult := CheckStatuses(permissions, status);
      if |checkResult.blockedPermissions| == 0 {
        var requestResult := RequestResult(checkResult.allowedPermissions, checkResult.blockedPermissions);
        if listener.Some? {
          deliveries := deliveries + [RequestDelivered(listener.value, requestResult)];
        }
      } else {
        Request(checkResult.blockedPermissions, Some(Forwarder(listener, checkResult.allowedPermissions)));
      }
    }

    /**
     * The host's response.  A foreign request code is not handled and changes
     * nothing.  Otherwise the manager stops waiting; with no pending listener
     * it reports false; with one it splits `permissions` by `results`, invokes
     * the listener once with that split, clears it and reports true.
     */
    method OnRequestPermissionsResult(requestCode: int, permissions: seq<Permission>, results: seq<int>)
      returns (handled: bool)
      requires Valid()
      requires requestCode == REQUEST_CODE && onRequestListener.Some? ==> |permissions| <= |results|
      modifies this`waitingForResponse, this`onRequestListener, this`deliveries
      ensures Valid()
      ensures requestCode != REQUEST_CODE ==> !handled && unchanged(this)
      ensures requestCode == REQUEST_CODE ==>
        && !waitingForResponse
        && onRequestListener == None
        && handled == old(onRequestListener).Some?
        && deliveries == old(deliveries) +
             (if handled then Notified(old(onRequestListener).value, Response(permissions, results)) else [])
    {
      if requestCode != REQUEST_CODE {
        return false;
      }
      waitingForResponse := false;
      if onRequestListener.None? {
        return false;
      }
      var requestResult := SplitResults(permissions, results);
      Invoke(onRequestListener.value, requestResult);
      onRequestListener := None;
      return true;
    }

    /** Runs a request listener's `onResult`. */
    method Invoke(listener: RequestListener, result: RequestResult)
      modifies this`deliveries
      ensures deliveries == old(deliveries) + Notified(listener, result)
    {
      match listener
      case Caller(id) =>
        deliveries := deliveries + [RequestDelivered(id, result)];
      case Forwarder(target, checkAllowed) =>
        // The wrapper builds the merged allowed list and then discards it.
        ghost var merged := checkAllowed + result.allowedPermissions;
        var forwarded := RequestResult(result.allowedPermissions, result.blockedPermissions);
        if target.Some? {
          deliveries := deliveries + [RequestDelivered(target.value, forwarded)];
        }
    }
  }

  /**
   * `requestIfNeeded` on a fresh manager followed by the host's response to
   * its request: when something was blocked, exactly one host request asks for
   * the blocked permissions, and the caller then receives the response's own
   * split of them, not the check's allowed list merged with it.
   */
  method RequestIfNeededThenRespond(permissions: seq<Permission>, status: Permission -> int, listener: ListenerId,
                                    results: seq<int>)
    returns (requests: seq<HostRequest>, delivered: seq<Delivery>, handled: bool)
    requires |Checked(permissions, status).blockedPermissions| <= |results|
    ensures var checked := Checked(permissions, status);
      if checked.blockedPermissions == [] then
        && requests == [] && !handled
        && delivered == [RequestDelivered(listener, RequestResult(checked.allowedPermissions, []))]
      else
        && requests == [HostRequest(checked.blockedPermissions, REQUEST_CODE)] && handled
        && delivered == [RequestDelivered(listener, Response(checked.blockedPermissions, results))]
  {
    var manager := new PermissionManager();
    manager.RequestIfNeeded(permissions, status, Some(listener));
    var checked := CheckStatuses(permissions, status);
    handled := manager.OnRequestPermissionsResult(REQUEST_CODE, checked.blockedPermissions, results);
    requests, delivered := manager.hostRequests, manager.deliveries;
  }

  /**
   * A response under another flow's request code is not handled and leaves
   * the pending listener and the wait in place, whatever its arrays hold.
   */
  method ForeignCodeIgnored(permissions: seq<Permission>, results: seq<int>, listener: ListenerId, requestCode: int)
    returns (handled: bool, waiting: bool, pending: Option<RequestListener>, delivered: seq<Delivery>)
    requires requestCode != REQUEST_CODE
    ensures !handled && waiting && pending == Some(Caller(listener)) && delivered == []
  {
    var manager := new PermissionManager();
    manager.Request(permissions, Some(Caller(listener)));
    handled := manager.OnRequestPermissionsResult(requestCode, permissions, results);
    waiting, pending, delivered := manager.waitingForResponse, manager.onRequestListener, manager.deliveries;
  }

  /**
   * A disabled manager ignores `check`, `request` and `requestIfNeeded`: no
   * listener is invoked, the host is not asked and no field changes.
   */
  method DisabledIgnoresCalls(permissions: seq<Permission>, status: Permission -> int, listener: ListenerId)
    returns (requests: seq<HostRequest>, delivered: seq<Delivery>, waiting: bool, pending: Option<RequestListener>)
    ensures requests == [] && delivered == [] && !waiting && pending == None
  {
    var manager := new PermissionManager();
    manager.SetEnabled(false);
    manager.Check(permissions, status, Some(listener));
    manager.Request(permissions, Some(Caller(listener)));
    manager.RequestIfNeeded(permissions, status, Some(listener));
    requests, delivered := manager.hostRequests, manager.deliveries;
    waiting, pending := manager.waitingForResponse, manager.onRequestListener;
  }
}
