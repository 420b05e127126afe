/**
 * The two immutable result records handed to listeners.  In the Java code
 * each holds two `String[]` fields that are assigned once, in the
 * constructor, and only read afterwards by getters; here they are datatype
 * values over sequences, so there is no setter and no aliasing to speak of.
 */
module Results {

  /** A permission name such as "android.permission.CAMERA"; compared by equality only. */
  type Permission = string

  /** Outcome of a status query (`check`): the granted and the non-granted inputs. */
  datatype CheckResult = CheckResult(allowedPermissions: seq<Permission>, blockedPermissions: seq<Permission>)

  /** Outcome of an explicit grant request, delivered to an `OnRequestListener`. */
  datatype RequestResult = RequestResult(allowedPermissions: seq<Permission>, blockedPermissions: seq<Permission>)

  /** The getters return exactly what the constructor was given, unchanged. */
  lemma RequestResultGetters(allowed: seq<Permission>, blocked: seq<Permission>)
    ensures RequestResult(allowed, blocked).allowedPermissions == allowed
    ensures RequestResult(allowed, blocked).blockedPermissions == blocked
  {
  }

  /**
   * The constructor validates nothing: any pair of sequences, overlapping or
   * not, covering anything or not, is a result, and two results are equal
   * exactly when both components are.
   */
  lemma RequestResultAcceptsAnyPair(allowed: seq<Permission>, blocked: seq<Permission>, other: RequestResult)
    ensures (RequestResult(allowed, blocked) == other) <==>
            (other.allowedPermissions == allowed && other.blockedPermissions == blocked)
  {
  }
}
