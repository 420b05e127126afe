/**
 * The order-preserving split of permissions into allowed and blocked that
 * both loops of PermissionManager perform: `check` by the host's status of
 * each permission, `onRequestPermissionsResult` by a parallel array of
 * result codes.  Both are one function, `Keep`, over a sequence of
 * permissions and a sequence of codes read index by index.
 */
module Partition {
  import opened Results

  /** `PackageManager.PERMISSION_GRANTED` and `PERMISSION_DENIED` of the Android platform. */
  const GRANTED: int := 0
  const DENIED: int := -1

  predicate IsGranted(code: int) {
    code == GRANTED
  }

  /**
   * The permissions `ps[i]` whose code `codes[i]` is GRANTED (when `granted`)
   * or is not GRANTED (when `!granted`), in input order.
   */
  function Keep(ps: seq<Permission>, codes: seq<int>, granted: bool): (kept: seq<Permission>)
    requires |ps| <= |codes|
    ensures |kept| <= |ps|
  {
    if ps == [] then []
    else (if IsGranted(codes[0]) == granted then [ps[0]] else []) + Keep(ps[1..], codes[1..], granted)
  }

  /** The status code the host reports for each permission, in input order. */
  function StatusCodes(ps: seq<Permission>, status: Permission -> int): (codes: seq<int>) {
    seq(|ps|, i requires 0 <= i < |ps| => status(ps[i]))
  }

  /** What `check` hands its listener, for a host whose status oracle is `status`. */
  function Checked(ps: seq<Permission>, status: Permission -> int): (checked: CheckResult) {
    var codes := StatusCodes(ps, status);
    CheckResult(Keep(ps, codes, true), Keep(ps, codes, false))
  }

  /** What `onRequestPermissionsResult` hands the pending listener. */
  function Response(ps: seq<Permission>, results: seq<int>): (response: RequestResult)
    requires |ps| <= |results|
  {
    RequestResult(Keep(ps, results, true), Keep(ps, results, false))
  }

  predicate Disjoint(a: seq<Permission>, b: seq<Permission>) {
    forall p :: p in a ==> p !in b
  }

  /** Extending the input by one element extends exactly one side by that element (the loop step). */
  lemma {:induction false} KeepSnoc(ps: seq<Permission>, codes: seq<int>, i: nat, granted: bool)
    requires i < |ps| <= |codes|
    ensures Keep(ps[..i + 1], codes, granted)
         == Keep(ps[..i], codes, granted) + (if IsGranted(codes[i]) == granted then [ps[i]] else [])
  {
    var head := if IsGranted(codes[0]) == granted then [ps[0]] else [];
    var last := if IsGranted(codes[i]) == granted then [ps[i]] else [];
    if i == 0 {
      assert ps[..1] == [ps[0]];
      assert ps[..1][1..] == [];
      assert ps[..0] == [];
    } else {
      var tail := ps[1..];
      KeepSnoc(tail, codes[1..], i - 1, granted);
      assert ps[..i + 1][1..] == tail[..i];
      assert ps[..i][1..] == tail[..i - 1];
      assert tail[i - 1] == ps[i] && codes[1..][i - 1] == codes[i];
      calc {
        Keep(ps[..i + 1], codes, granted);
        head + Keep(tail[..i], codes[1..], granted);
        head + (Keep(tail[..i - 1], codes[1..], granted) + last);
        (head + Keep(tail[..i - 1], codes[1..], granted)) + last;
        Keep(ps[..i], codes, granted) + last;
      }
    }
  }

  /** The two sides together are as long as the input. */
  lemma {:induction false} KeepLengths(ps: seq<Permission>, codes: seq<int>)
    requires |ps| <= |codes|
    ensures |Keep(ps, codes, true)| + |Keep(ps, codes, false)| == |ps|
  {
    if ps != [] {
      KeepLengths(ps[1..], codes[1..]);
    }
  }

  /** The two sides together hold every input element exactly as often as the input does. */
  lemma {:induction false} KeepCovers(ps: seq<Permission>, codes: seq<int>)
    requires |ps| <= |codes|
    ensures multiset(Keep(ps, codes, true)) + multiset(Keep(ps, codes, false)) == multiset(ps)
  {
    if ps != [] {
      KeepCovers(ps[1..], codes[1..]);
      assert ps == [ps[0]] + ps[1..];
    }
  }

  /**
   * The indices below `n` whose code is on the given side, in increasing
   * order: an index-level reference for what `Keep` selects.
   */
  function Positions(codes: seq<int>, n: nat, granted: bool): (pos: seq<int>)
    requires n <= |codes|
    ensures forall k :: 0 <= k < |pos| ==> 0 <= pos[k] < n && IsGranted(codes[pos[k]]) == granted
    ensures forall k, l :: 0 <= k < l < |pos| ==> pos[k] < pos[l]
    ensures forall i :: 0 <= i < n && IsGranted(codes[i]) == granted ==> i in pos
  {
    if n == 0 then []
    else
      var earlier := Positions(codes, n - 1, granted);
      if IsGranted(codes[n - 1]) == granted then earlier + [n - 1] else earlier
  }

  /** The first `n` inputs keep exactly the inputs at `Positions(codes, n, granted)`, in that order. */
  lemma {:induction false} KeepPrefixAtPositions(ps: seq<Permission>, codes: seq<int>, granted: bool, n: nat)
    requires n <= |ps| <= |codes|
    ensures |Keep(ps[..n], codes, granted)| == |Positions(codes, n, granted)|
    ensures forall k :: 0 <= k < |Positions(codes, n, granted)| ==>
              Keep(ps[..n], codes, granted)[k] == ps[Positions(codes, n, granted)[k]]
  {
    if n > 0 {
      KeepPrefixAtPositions(ps, codes, granted, n - 1);
      KeepSnoc(ps, codes, n - 1, granted);
    }
  }

  /**
   * Order preservation: a side of the split is the input read, in increasing
   * order, at exactly those indices whose code belongs to that side.
   */
  lemma KeepAtPositions(ps: seq<Permission>, codes: seq<int>, granted: bool)
    requires |ps| <= |codes|
    ensures |Keep(ps, codes, granted)| == |Positions(codes, |ps|, granted)|
    ensures forall k :: 0 <= k < |Keep(ps, codes, granted)| ==>
              Keep(ps, codes, granted)[k] == ps[Positions(codes, |ps|, granted)[k]]
  {
    KeepPrefixAtPositions(ps, codes, granted, |ps|);
    assert ps[..|ps|] == ps;
  }

  /** An element is kept on a side exactly when some index holding it has a code for that side. */
  lemma {:induction false} KeepMember(ps: seq<Permission>, codes: seq<int>, granted: bool, p: Permission)
    requires |ps| <= |codes|
    ensures p in Keep(ps, codes, granted) <==>
            exists i :: 0 <= i < |ps| && ps[i] == p && IsGranted(codes[i]) == granted
  {
    var kept := Keep(ps, codes, granted);
    var idx := Positions(codes, |ps|, granted);
    KeepAtPositions(ps, codes, granted);
    if p in kept {
      var k :| 0 <= k < |kept| && kept[k] == p;
      assert ps[idx[k]] == p;
    }
    if exists i :: 0 <= i < |ps| && ps[i] == p && IsGranted(codes[i]) == granted {
      var i :| 0 <= i < |ps| && ps[i] == p && IsGranted(codes[i]) == granted;
      var k :| 0 <= k < |idx| && idx[k] == i;
      assert kept[k] == p;
    }
  }

  /**
   * `check` puts a permission among the allowed exactly when it was queried
   * and the host reports it granted, among the blocked exactly when it was
   * queried and is not granted; so no permission lands on both sides.
   */
  lemma CheckedSplit(ps: seq<Permission>, status: Permission -> int, p: Permission)
    ensures p in Checked(ps, status).allowedPermissions <==> p in ps && IsGranted(status(p))
    ensures p in Checked(ps, status).blockedPermissions <==> p in ps && !IsGranted(status(p))
  {
    var codes := StatusCodes(ps, status);
    KeepMember(ps, codes, true, p);
    KeepMember(ps, codes, false, p);
    if p in ps {
      var i :| 0 <= i < |ps| && ps[i] == p;
      assert codes[i] == status(p);
    }
  }

  /** Hence the two sides of a check never share a permission. */
  lemma CheckedDisjoint(ps: seq<Permission>, status: Permission -> int)
    ensures Disjoint(Checked(ps, status).allowedPermissions, Checked(ps, status).blockedPermissions)
  {
    forall p | p in Checked(ps, status).allowedPermissions
      ensures p !in Checked(ps, status).blockedPermissions
    {
      CheckedSplit(ps, status, p);
    }
  }

  /** The sides of a response are disjoint when the host lists each permission at most once. */
  lemma ResponseDisjoint(ps: seq<Permission>, results: seq<int>)
    requires |ps| <= |results|
    requires forall i, j :: 0 <= i < j < |ps| ==> ps[i] != ps[j]
    ensures Disjoint(Response(ps, results).allowedPermissions, Response(ps, results).blockedPermissions)
  {
    forall p | p in Response(ps, results).allowedPermissions
      ensures p !in Response(ps, results).blockedPermissions
    {
      KeepMember(ps, results, true, p);
      KeepMember(ps, results, false, p);
    }
  }

  /**
   * The response split is index-based, so a permission listed twice with
   * different codes is reported on both sides.
   */
  lemma ResponseOverlapsOnDuplicates()
    ensures var r := Response(["A", "A"], [GRANTED, DENIED]);
            "A" in r.allowedPermissions && "A" in r.blockedPermissions
  {
    KeepMember(["A", "A"], [GRANTED, DENIED], true, "A");
    KeepMember(["A", "A"], [GRANTED, DENIED], false, "A");
    assert ["A", "A"][0] == "A" && ["A", "A"][1] == "A";
  }
}
