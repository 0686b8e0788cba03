/** Signer approval policies: what may be constructed, what an answer is read as, when the two agree,
    and which signing windows a policy's duration limit admits. */
module Governance {
  import opened Wrappers
  import opened TextTools
  import opened Resources
  import opened Sorting

  const MAX_POLICY_STEPS := 16
  const MAX_POLICY_APPROVERS := 64
  const MAX_POLICY_STEP_NAME_BYTES := 64
  const MAX_POLICY_DURATION_BYTES := 32
  const MAX_POLICY_SIGNINGS := 1_000_000

  datatype Kind = User | Group

  datatype Approver = Approver(kind: Kind, id: string)

  datatype Constraints = Constraints(maxSignings: Option<nat>, maxWindowDuration: Option<string>)

  datatype StepChange = StepChange(
    stepNumber: nat, name: Option<string>, requiredApprovals: nat, userIds: seq<string>, groupIds: seq<string>)

  datatype Replacement = Replacement(steps: seq<StepChange>, constraints: Constraints)

  datatype StepWire = StepWire(
    name: Option<string>, requiredApprovals: nat, approvers: seq<Approver>, notifyApprovers: Option<bool>)

  datatype PolicyWire = PolicyWire(
    id: string, signerId: string, hasSteps: bool, steps: seq<StepWire>, constraints: Constraints)

  datatype Step = Step(
    stepNumber: nat, name: Option<string>, requiredApprovals: nat, approvers: seq<Approver>, notifyApprovers: bool)

  datatype Policy = Policy(id: string, signerId: string, steps: seq<Step>, constraints: Constraints)

  datatype InputError = InvalidPolicyApprovers | InvalidPolicySteps | InvalidPolicyConstraints

  // ---------- construction ----------

  /** Inserting one by one into a hash set succeeds every time exactly for pairwise distinct lists. */
  method InsertionsAreFresh(ids: seq<string>) returns (distinct: bool)
    ensures distinct <==> Distinct(ids)
  {
    var unique := {};
    for k := 0 to |ids|
      invariant forall id :: id in unique <==> id in ids[..k]
      invariant Distinct(ids[..k])
    {
      assert ids[..k + 1] == ids[..k] + [ids[k]];
      if ids[k] in unique {
        var j :| 0 <= j < k && ids[..k][j] == ids[k];
        assert ids[j] == ids[k];
        return false;
      }
      unique := unique + {ids[k]};
    }
    assert ids[..|ids|] == ids;
    return true;
  }

  /** A member identifier is a UUID held in lower case. */
  predicate MemberId(id: string) {
    IsUuid(id) && LowerAscii(id) == id
  }

  predicate NameOk(name: Option<string>) {
    name.Some? ==>
      && name.value != "" && Utf8Length(name.value) <= MAX_POLICY_STEP_NAME_BYTES && Trim(name.value) == name.value
      && forall c :: c in name.value ==> !IsControl(c)
  }

  predicate StepChangeOk(s: StepChange) {
    && 1 <= s.stepNumber <= MAX_POLICY_STEPS && NameOk(s.name) && 0 < s.requiredApprovals
    && 1 <= |s.userIds| + |s.groupIds| <= MAX_POLICY_APPROVERS
    && Distinct(s.userIds + s.groupIds)
    && (s.groupIds == [] ==> s.requiredApprovals <= |s.userIds|)
  }

  method NewStepChange(stepNumber: nat, name: Option<string>, requiredApprovals: nat,
                       userIds: seq<string>, groupIds: seq<string>) returns (r: Result<StepChange, InputError>)
    ensures
      var step := StepChange(stepNumber, name, requiredApprovals, userIds, groupIds);
      r == if StepChangeOk(step) then Success(step) else Failure(InvalidPolicyApprovers)
  {
    var unique := InsertionsAreFresh(userIds + groupIds);
    if stepNumber == 0 || stepNumber > MAX_POLICY_STEPS || !NameOk(name) || requiredApprovals == 0
       || |userIds| + |groupIds| == 0 || |userIds| + |groupIds| > MAX_POLICY_APPROVERS || !unique
       || (groupIds == [] && requiredApprovals > |userIds|)
    {
      return Failure(InvalidPolicyApprovers);
    }
    return Success(StepChange(stepNumber, name, requiredApprovals, userIds, groupIds));
  }

  predicate ConstraintsOk(c: Constraints, hasSteps: bool) {
    && (c.maxSignings.Some? ==> 1 <= c.maxSignings.value <= MAX_POLICY_SIGNINGS)
    && (c.maxWindowDuration.Some? ==> ValidPolicyDuration(c.maxWindowDuration.value))
    && (hasSteps ==> c.maxSignings.Some? || c.maxWindowDuration.Some?)
  }

  function NewReplacement(steps: seq<StepChange>, constraints: Constraints): Result<Replacement, InputError> {
    if |steps| > MAX_POLICY_STEPS || exists k :: 0 <= k < |steps| && steps[k].stepNumber != k + 1
    then Failure(InvalidPolicySteps)
    else if !ConstraintsOk(constraints, steps != []) then Failure(InvalidPolicyConstraints)
    else Success(Replacement(steps, constraints))
  }

  /** What the constructors let through. */
  predicate Constructible(r: Replacement) {
    && NewReplacement(r.steps, r.constraints).Success?
    && forall k :: 0 <= k < |r.steps| ==>
         StepChangeOk(r.steps[k]) && forall id :: id in r.steps[k].userIds + r.steps[k].groupIds ==> MemberId(id)
  }

  // ---------- reading an answer ----------

  function Ids(approvers: seq<Approver>): (ids: seq<string>)
    ensures |ids| == |approvers| && forall k :: 0 <= k < |ids| ==> ids[k] == approvers[k].id
  {
    seq(|approvers|, k requires 0 <= k < |approvers| => approvers[k].id)
  }

  function Lowered(approvers: seq<Approver>): (r: seq<Approver>)
    ensures |r| == |approvers|
    ensures forall k :: 0 <= k < |r| ==> r[k] == Approver(approvers[k].kind, LowerAscii(approvers[k].id))
  {
    seq(|approvers|, k requires 0 <= k < |approvers| => Approver(approvers[k].kind, LowerAscii(approvers[k].id)))
  }

  predicate StepWireOk(s: StepWire) {
    && 0 < s.requiredApprovals && 1 <= |s.approvers| <= MAX_POLICY_APPROVERS && NameOk(s.name)
    && (forall a :: a in s.approvers ==> IsUuid(a.id))
    && Distinct(Ids(s.approvers))
    && ((exists a :: a in s.approvers && a.kind.Group?) || s.requiredApprovals <= |s.approvers|)
  }

  function StepFromWire(s: StepWire, index: nat): Step {
    Step(index + 1, s.name, s.requiredApprovals, Lowered(s.approvers), s.notifyApprovers == Some(true))
  }

  function StepsFromWire(steps: seq<StepWire>): (r: seq<Step>)
    ensures |r| == |steps| && forall k :: 0 <= k < |r| ==> r[k] == StepFromWire(steps[k], k)
  {
    seq(|steps|, k requires 0 <= k < |steps| => StepFromWire(steps[k], k))
  }

  function PolicyFromWire(w: PolicyWire, signerId: string): Option<Policy> {
    if !IsUuid(w.id) || w.signerId != signerId || w.hasSteps == (w.steps == []) || |w.steps| > MAX_POLICY_STEPS
       || !ConstraintsOk(w.constraints, w.steps != [])
       || exists k :: 0 <= k < |w.steps| && !StepWireOk(w.steps[k])
    then None
    else Some(Policy(w.id, w.signerId, StepsFromWire(w.steps), w.constraints))
  }

  // ---------- comparing an answer with what was asked ----------

  function Elements<T(==)>(s: seq<T>): set<T> {
    set x | x in s
  }

  function Expected(s: StepChange): (r: seq<Approver>)
    ensures |r| == |s.userIds| + |s.groupIds|
    ensures forall k :: 0 <= k < |s.userIds| ==> r[k] == Approver(User, s.userIds[k])
    ensures forall k :: 0 <= k < |s.groupIds| ==> r[|s.userIds| + k] == Approver(Group, s.groupIds[k])
  {
    seq(|s.userIds|, k requires 0 <= k < |s.userIds| => Approver(User, s.userIds[k])) +
    seq(|s.groupIds|, k requires 0 <= k < |s.groupIds| => Approver(Group, s.groupIds[k]))
  }

  predicate StepMatches(actual: Step, expected: StepChange) {
    && actual.stepNumber == expected.stepNumber && actual.name == expected.name
    && actual.requiredApprovals == expected.requiredApprovals && !actual.notifyApprovers
    && Elements(actual.approvers) == Elements(Expected(expected))
  }

  predicate PolicyMatches(policy: Policy, r: Replacement) {
    && policy.constraints == r.constraints && |policy.steps| == |r.steps|
    && forall k :: 0 <= k < |r.steps| ==> StepMatches(policy.steps[k], r.steps[k])
  }

  /** The answer says, step by step and in order, what the replacement asked for. */
  ghost predicate SaysTheSame(w: PolicyWire, r: Replacement) {
    && w.constraints == r.constraints && |w.steps| == |r.steps|
    && forall k :: 0 <= k < |r.steps| ==>
         && w.steps[k].name == r.steps[k].name
         && w.steps[k].requiredApprovals == r.steps[k].requiredApprovals
         && w.steps[k].notifyApprovers != Some(true)
         && forall a :: a in Lowered(w.steps[k].approvers) <==>
              (if a.kind.User? then a.id in r.steps[k].userIds else a.id in r.steps[k].groupIds)
  }

  lemma {:induction false} ExpectedMembers(s: StepChange, a: Approver)
    ensures a in Expected(s) <==> if a.kind.User? then a.id in s.userIds else a.id in s.groupIds
  {
    if a.kind.User? && a.id in s.userIds {
      var k :| 0 <= k < |s.userIds| && s.userIds[k] == a.id;
      assert Expected(s)[k] == a;
    }
    if a.kind.Group? && a.id in s.groupIds {
      var k :| 0 <= k < |s.groupIds| && s.groupIds[k] == a.id;
      assert Expected(s)[|s.userIds| + k] == a;
    }
    if a in Expected(s) {
      var k :| 0 <= k < |Expected(s)| && Expected(s)[k] == a;
      assert k >= |s.userIds| ==> Expected(s)[|s.userIds| + (k - |s.userIds|)] == a;
    }
  }

  /** An accepted answer matches exactly when it says the same: ordered steps, thresholds, limits and
      approver sets over lower-cased ids. Step numbers need no comparison of their own. */
  lemma {:induction false} MatchIsExact(w: PolicyWire, signerId: string, r: Replacement)
    requires Constructible(r) && PolicyFromWire(w, signerId).Some?
    ensures PolicyMatches(PolicyFromWire(w, signerId).value, r) <==> SaysTheSame(w, r)
  {
    var policy := PolicyFromWire(w, signerId).value;
    if |w.steps| == |r.steps| {
      forall k | 0 <= k < |r.steps|
        ensures Elements(policy.steps[k].approvers) == Elements(Expected(r.steps[k])) <==>
                forall a :: a in Lowered(w.steps[k].approvers) <==>
                  (if a.kind.User? then a.id in r.steps[k].userIds else a.id in r.steps[k].groupIds)
      {
        SameElements(Lowered(w.steps[k].approvers), r.steps[k]);
      }
    }
  }

  lemma {:induction false} SameElements(approvers: seq<Approver>, s: StepChange)
    ensures Elements(approvers) == Elements(Expected(s)) <==>
            forall a :: a in approvers <==> (if a.kind.User? then a.id in s.userIds else a.id in s.groupIds)
  {
    forall a
      ensures a in Elements(Expected(s)) <==> if a.kind.User? then a.id in s.userIds else a.id in s.groupIds
      ensures a in Elements(approvers) <==> a in approvers
    {
      ExpectedMembers(s, a);
    }
  }

  // ---------- a faithful echo is accepted ----------

  /** The server's answer to a replacement: the same policy under some id, with each step's approvers
      in any order and in either letter case. */
  ghost predicate Echoes(w: PolicyWire, signerId: string, r: Replacement) {
    && IsUuid(w.id) && w.signerId == signerId && w.hasSteps == (w.steps != [])
    && w.constraints == r.constraints && |w.steps| == |r.steps|
    && forall k :: 0 <= k < |r.steps| ==>
         && w.steps[k].name == r.steps[k].name
         && w.steps[k].requiredApprovals == r.steps[k].requiredApprovals
         && w.steps[k].notifyApprovers != Some(true)
         && multiset(Lowered(w.steps[k].approvers)) == multiset(Expected(r.steps[k]))
  }

  lemma {:induction false} LowerUuid(id: string)
    requires IsUuid(LowerAscii(id))
    ensures IsUuid(id)
  {
    forall k | 0 <= k < 36
      ensures if k in [8, 13, 18, 23] then id[k] == '-' else IsHexDigit(id[k])
    {
      assert LowerAscii(id)[k] == LowerChar(id[k]);
    }
  }

  lemma {:induction false} ExpectedIdsDistinct(s: StepChange)
    requires Distinct(s.userIds + s.groupIds)
    ensures Distinct(Ids(Expected(s))) && Distinct(Expected(s))
  {
    var ids := s.userIds + s.groupIds;
    assert Ids(Expected(s)) == ids;
    forall j, k | 0 <= j < k < |Expected(s)|
      ensures Expected(s)[j] != Expected(s)[k]
    {
      assert Ids(Expected(s))[j] != Ids(Expected(s))[k];
    }
  }

  /** Lists with the same elements have the same ids; stated on the ids of pairwise distinct entries. */
  lemma {:induction false} IdsStayDistinct(a: seq<Approver>, b: seq<Approver>)
    requires multiset(a) == multiset(b) && Distinct(Ids(b)) && Distinct(b)
    ensures Distinct(Ids(a))
  {
    PermutationsAgreeOnDistinct(a, b);
    forall j, k | 0 <= j < k < |a|
      ensures Ids(a)[j] != Ids(a)[k]
    {
      assert a[j] in multiset(b) && a[k] in multiset(b);
      var m :| 0 <= m < |b| && b[m] == a[j];
      var n :| 0 <= n < |b| && b[n] == a[k];
      assert m != n && Ids(b)[m] == a[j].id && Ids(b)[n] == a[k].id;
    }
  }

  lemma {:induction false} SameMembers(a: seq<Approver>, b: seq<Approver>)
    requires multiset(a) == multiset(b)
    ensures |a| == |b| && forall x :: x in a <==> x in b
  {
    assert |multiset(a)| == |a| && |multiset(b)| == |b|;
    forall x
      ensures x in a <==> x in b
    {
      assert x in a <==> x in multiset(a);
      assert x in b <==> x in multiset(b);
    }
  }

  lemma {:induction false} EchoedIdsAreDistinct(approvers: seq<Approver>, s: StepChange)
    requires Distinct(s.userIds + s.groupIds) && multiset(Lowered(approvers)) == multiset(Expected(s))
    ensures Distinct(Ids(approvers))
  {
    var lowered := Lowered(approvers);
    ExpectedIdsDistinct(s);
    IdsStayDistinct(lowered, Expected(s));
    forall j, k | 0 <= j < k < |approvers|
      ensures Ids(approvers)[j] != Ids(approvers)[k]
    {
      assert Ids(lowered)[j] != Ids(lowered)[k];
    }
  }

  lemma {:induction false} EchoedIdsAreUuids(approvers: seq<Approver>, s: StepChange)
    requires forall id :: id in s.userIds + s.groupIds ==> MemberId(id)
    requires forall a :: a in Lowered(approvers) ==> a in Expected(s)
    ensures forall a :: a in approvers ==> IsUuid(a.id)
  {
    forall a | a in approvers
      ensures IsUuid(a.id)
    {
      var k :| 0 <= k < |approvers| && approvers[k] == a;
      var lowered := Lowered(approvers)[k];
      assert lowered in Expected(s);
      ExpectedMembers(s, lowered);
      assert MemberId(lowered.id);
      LowerUuid(a.id);
    }
  }

  lemma {:induction false} EchoedGroupIsThere(approvers: seq<Approver>, s: StepChange)
    requires s.groupIds != [] && forall a :: a in Expected(s) ==> a in Lowered(approvers)
    ensures exists a :: a in approvers && a.kind.Group?
  {
    var group := Approver(Group, s.groupIds[0]);
    ExpectedMembers(s, group);
    var k :| 0 <= k < |approvers| && Lowered(approvers)[k] == group;
    assert approvers[k] in approvers && approvers[k].kind.Group?;
  }

  lemma {:induction false} EchoedStepIsOk(w: StepWire, s: StepChange)
    requires StepChangeOk(s) && forall id :: id in s.userIds + s.groupIds ==> MemberId(id)
    requires w.name == s.name && w.requiredApprovals == s.requiredApprovals
    requires multiset(Lowered(w.approvers)) == multiset(Expected(s))
    ensures StepWireOk(w)
    ensures forall a :: a in Lowered(w.approvers) <==> a in Expected(s)
  {
    SameMembers(Lowered(w.approvers), Expected(s));
    EchoedIdsAreDistinct(w.approvers, s);
    EchoedIdsAreUuids(w.approvers, s);
    if s.groupIds != [] {
      EchoedGroupIsThere(w.approvers, s);
    }
  }

  lemma {:induction false} EchoedStepSays(w: StepWire, s: StepChange)
    requires forall a :: a in Lowered(w.approvers) <==> a in Expected(s)
    ensures forall a :: a in Lowered(w.approvers) <==> (if a.kind.User? then a.id in s.userIds else a.id in s.groupIds)
  {
    forall a
      ensures a in Expected(s) <==> if a.kind.User? then a.id in s.userIds else a.id in s.groupIds
    {
      ExpectedMembers(s, a);
    }
  }

  lemma {:induction false} EchoIsRead(w: PolicyWire, signerId: string, r: Replacement)
    requires Constructible(r) && Echoes(w, signerId, r)
    ensures PolicyFromWire(w, signerId).Some?
  {
    forall k | 0 <= k < |r.steps|
      ensures StepWireOk(w.steps[k])
    {
      EchoedStepIsOk(w.steps[k], r.steps[k]);
    }
  }

  lemma {:induction false} EchoSaysTheSame(w: PolicyWire, signerId: string, r: Replacement)
    requires Constructible(r) && Echoes(w, signerId, r)
    ensures SaysTheSame(w, r)
  {
    forall k | 0 <= k < |r.steps|
      ensures forall a :: a in Lowered(w.steps[k].approvers) <==>
                (if a.kind.User? then a.id in r.steps[k].userIds else a.id in r.steps[k].groupIds)
    {
      EchoedStepIsOk(w.steps[k], r.steps[k]);
      EchoedStepSays(w.steps[k], r.steps[k]);
    }
  }

  /** A faithful echo of any constructible replacement is read as a policy, and that policy matches. */
  lemma {:induction false} EchoIsAccepted(w: PolicyWire, signerId: string, r: Replacement)
    requires Constructible(r) && Echoes(w, signerId, r)
    ensures PolicyFromWire(w, signerId).Some? && PolicyMatches(PolicyFromWire(w, signerId).value, r)
  {
    EchoIsRead(w, signerId, r);
    EchoSaysTheSame(w, signerId, r);
    MatchIsExact(w, signerId, r);
  }

  lemma {:induction false} ElementCount<T(!new)>(s: seq<T>)
    ensures |Elements(s)| <= |s|
    ensures |Elements(s)| == |s| <==> Distinct(s)
  {
    if s != [] {
      ElementCount(s[1..]);
      assert s == [s[0]] + s[1..];
      assert Elements(s) == {s[0]} + Elements(s[1..]);
      if s[0] in s[1..] {
        assert Elements(s) == Elements(s[1..]);
        var k :| 0 <= k < |s| - 1 && s[1..][k] == s[0];
        assert s[k + 1] == s[0];
      } else {
        assert |Elements(s)| == 1 + |Elements(s[1..])|;
      }
    }
  }

  /** Wire uniqueness is tested before lowering, so a matching answer may repeat an approver in
      another letter case; it names no more approvers than were asked for exactly when it does not. */
  lemma {:induction false} MatchingApproverCount(w: StepWire, index: nat, s: StepChange)
    requires StepChangeOk(s) && StepMatches(StepFromWire(w, index), s)
    ensures |s.userIds| + |s.groupIds| <= |w.approvers|
    ensures |w.approvers| == |s.userIds| + |s.groupIds| <==> Distinct(Lowered(w.approvers))
  {
    ExpectedIdsDistinct(s);
    ElementCount(Expected(s));
    ElementCount(Lowered(w.approvers));
  }

  /** Two spellings of one identifier that differ in letter case. */
  ghost predicate Respelled(id: string, other: string) {
    MemberId(id) && IsUuid(other) && other != id && LowerAscii(other) == id
  }

  function SoleApprover(id: string): StepChange {
    StepChange(1, None, 1, [id], [])
  }

  function TwiceNamed(id: string, other: string): StepWire {
    StepWire(None, 1, [Approver(User, id), Approver(User, other)], None)
  }

  lemma {:induction false} TwiceNamedMatches(id: string, other: string)
    requires Respelled(id, other)
    ensures StepChangeOk(SoleApprover(id)) && StepWireOk(TwiceNamed(id, other))
    ensures StepMatches(StepFromWire(TwiceNamed(id, other), 0), SoleApprover(id))
    ensures StepFromWire(TwiceNamed(id, other), 0).approvers == [Approver(User, id), Approver(User, id)]
  {
    var lowered := Lowered(TwiceNamed(id, other).approvers);
    assert lowered == [Approver(User, id), Approver(User, id)];
    assert Expected(SoleApprover(id)) == [Approver(User, id)];
    assert [id] + [] == [id];
    forall a
      ensures a in Elements(lowered) <==> a in Elements(Expected(SoleApprover(id)))
    {
      assert a in lowered <==> a == lowered[0] || a == lowered[1];
    }
  }

  /** So it happens: asked for one approver, an answer that names it twice, in two spellings, is
      accepted and matches, and the policy read from it lists that approver twice. */
  lemma {:induction false} RepeatedApproverIsAccepted(id: string, other: string, policyId: string, signerId: string)
    requires Respelled(id, other) && IsUuid(policyId)
    ensures
      var r := Replacement([SoleApprover(id)], Constraints(Some(1), None));
      var w := PolicyWire(policyId, signerId, true, [TwiceNamed(id, other)], Constraints(Some(1), None));
      && Constructible(r)
      && PolicyFromWire(w, signerId).Some? && PolicyMatches(PolicyFromWire(w, signerId).value, r)
      && PolicyFromWire(w, signerId).value.steps[0].approvers == [Approver(User, id), Approver(User, id)]
  {
    TwiceNamedMatches(id, other);
  }

  /** An identifier has another spelling exactly when it holds a letter. */
  lemma {:induction false} RespelledIffLetter(id: string)
    requires MemberId(id)
    ensures (exists other :: Respelled(id, other)) <==> exists k :: 0 <= k < 36 && IsLower(id[k])
  {
    if k :| 0 <= k < 36 && IsLower(id[k]) {
      var upper := (id[k] as int - 32) as char;
      var other := id[k := upper];
      assert LowerAscii(id)[k] == id[k] && LowerChar(upper) == id[k];
      forall j | 0 <= j < 36
        ensures LowerAscii(other)[j] == id[j]
        ensures if j in [8, 13, 18, 23] then other[j] == '-' else IsHexDigit(other[j])
      {
        assert LowerAscii(id)[j] == id[j];
      }
      assert LowerAscii(other) == id;
      assert Respelled(id, other);
    }
    if other :| Respelled(id, other) {
      assert exists k :: 0 <= k < 36 && other[k] != id[k];
      var k :| 0 <= k < 36 && other[k] != id[k];
      assert LowerAscii(other)[k] == LowerChar(other[k]);
    }
  }

  /** The identifier written with one hexadecimal digit throughout. */
  function UuidOf(digit: char): (id: string)
    ensures |id| == 36
  {
    seq(36, k => if k in [8, 13, 18, 23] then '-' else digit)
  }

  /** One such answer: the approver aaaaaaaa-aaaa-aaaa-aaaa-aaaaaaaaaaaa, once as it is and once in
      capitals. */
  lemma {:induction false} RepeatedApproverExists()
    ensures
      var id := UuidOf('a');
      var r := Replacement([SoleApprover(id)], Constraints(Some(1), None));
      var w := PolicyWire(id, id, true, [TwiceNamed(id, UuidOf('A'))], Constraints(Some(1), None));
      && Constructible(r)
      && PolicyFromWire(w, id).Some? && PolicyMatches(PolicyFromWire(w, id).value, r)
      && |PolicyFromWire(w, id).value.steps[0].approvers| == 2
  {
    var id, other := UuidOf('a'), UuidOf('A');
    assert LowerAscii(id) == id && LowerAscii(other) == id;
    assert other[0] != id[0];
    RepeatedApproverIsAccepted(id, other, id, id);
  }

  function MemberIds(s: StepChange): seq<string> {
    s.userIds + s.groupIds
  }

  ghost predicate HasLetter(id: string) {
    exists k :: 0 <= k < |id| && IsLower(id[k])
  }

  /** An accepted and matching answer to a step that names some approver more than once. */
  ghost predicate RepeatsAnApprover(w: StepWire, s: StepChange) {
    && StepChangeOk(s) && StepWireOk(w) && StepMatches(StepFromWire(w, s.stepNumber - 1), s)
    && !Distinct(Lowered(w.approvers))
  }

  lemma {:induction false} SameSpelling(a: string, b: string)
    requires LowerAscii(a) == LowerAscii(b) && !HasLetter(LowerAscii(a))
    ensures a == b
  {
    forall k | 0 <= k < |a|
      ensures a[k] == LowerAscii(a)[k] && b[k] == LowerAscii(b)[k]
    {
      assert !IsLower(LowerAscii(a)[k]) && !IsLower(LowerAscii(b)[k]);
    }
  }

  lemma {:induction false} RepetitionNeedsALetter(w: StepWire, s: StepChange)
    requires StepChangeOk(s) && RepeatsAnApprover(w, s)
    ensures |MemberIds(s)| < MAX_POLICY_APPROVERS
    ensures exists id :: id in MemberIds(s) && HasLetter(id)
  {
    MatchingApproverCount(w, s.stepNumber - 1, s);
    var lowered := Lowered(w.approvers);
    var j, k :| 0 <= j < k < |lowered| && lowered[j] == lowered[k];
    assert Ids(w.approvers)[j] != Ids(w.approvers)[k];
    if !HasLetter(lowered[j].id) {
      SameSpelling(w.approvers[j].id, w.approvers[k].id);
    }
    assert lowered[j] in Elements(lowered);
    ExpectedMembers(s, lowered[j]);
    assert lowered[j].id in MemberIds(s);
  }

  lemma {:induction false} ExpectedIdAt(s: StepChange, k: nat)
    requires k < |MemberIds(s)|
    ensures Expected(s)[k].id == MemberIds(s)[k] && MemberIds(s)[k] in MemberIds(s)
  {
    if |s.userIds| <= k {
      assert Expected(s)[|s.userIds| + (k - |s.userIds|)].id == s.groupIds[k - |s.userIds|];
    }
  }

  lemma {:induction false} ExpectedIsLowered(s: StepChange)
    requires forall id :: id in MemberIds(s) ==> MemberId(id)
    ensures Lowered(Expected(s)) == Expected(s) && Ids(Expected(s)) == MemberIds(s)
  {
    forall k | 0 <= k < |Expected(s)|
      ensures Lowered(Expected(s))[k] == Expected(s)[k] && Ids(Expected(s))[k] == MemberIds(s)[k]
    {
      ExpectedIdAt(s, k);
      assert MemberId(MemberIds(s)[k]);
    }
  }

  /** The step's own approvers, and one of them again in another spelling. */
  function WithRepeated(s: StepChange, again: Approver): StepWire {
    StepWire(s.name, s.requiredApprovals, Expected(s) + [again], None)
  }

  /** There is room for one more approver, and the `k`th has another spelling. */
  ghost predicate CanRepeat(s: StepChange, k: nat, other: string) {
    && StepChangeOk(s) && |MemberIds(s)| < MAX_POLICY_APPROVERS && k < |MemberIds(s)|
    && (forall id :: id in MemberIds(s) ==> MemberId(id))
    && Respelled(MemberIds(s)[k], other)
  }

  lemma {:induction false} RepeatedIdsAreOk(s: StepChange, k: nat, other: string)
    requires CanRepeat(s, k, other)
    ensures
      var approvers := WithRepeated(s, Approver(Expected(s)[k].kind, other)).approvers;
      Distinct(Ids(approvers)) && forall a :: a in approvers ==> IsUuid(a.id)
  {
    var ids := MemberIds(s);
    var approvers := WithRepeated(s, Approver(Expected(s)[k].kind, other)).approvers;
    ExpectedIsLowered(s);
    assert Ids(approvers) == ids + [other];
    assert other !in ids;
    assert Distinct(ids + [other]);
    forall a | a in approvers
      ensures IsUuid(a.id)
    {
      var n :| 0 <= n < |approvers| && approvers[n] == a;
      assert a.id == (ids + [other])[n];
      assert n < |ids| ==> ids[n] in ids;
    }
  }

  lemma {:induction false} RepeatedAreExpected(s: StepChange, k: nat, other: string)
    requires CanRepeat(s, k, other)
    ensures
      var lowered := Lowered(WithRepeated(s, Approver(Expected(s)[k].kind, other)).approvers);
      Elements(lowered) == Elements(Expected(s)) && !Distinct(lowered)
  {
    var expected := Expected(s);
    var lowered := Lowered(WithRepeated(s, Approver(expected[k].kind, other)).approvers);
    ExpectedIsLowered(s);
    assert Ids(expected)[k] == MemberIds(s)[k];
    assert lowered == expected + [expected[k]];
    assert lowered[|expected|] == lowered[k];
    forall a
      ensures a in Elements(lowered) <==> a in Elements(expected)
    {
      assert a in lowered <==> a in expected || a == expected[k];
    }
  }

  lemma {:induction false} RepeatedAnswer(s: StepChange, k: nat, other: string)
    requires CanRepeat(s, k, other)
    ensures RepeatsAnApprover(WithRepeated(s, Approver(Expected(s)[k].kind, other)), s)
  {
    var w := WithRepeated(s, Approver(Expected(s)[k].kind, other));
    RepeatedIdsAreOk(s, k, other);
    RepeatedAreExpected(s, k, other);
    if s.groupIds != [] {
      assert Expected(s)[|s.userIds| + 0].kind.Group?;
      assert w.approvers[|s.userIds|] in w.approvers;
    }
  }

  /** Which steps can be answered with a repeated approver, and still be accepted and match: exactly
      those with room for one more approver and a letter in the identifier of some approver. */
  lemma {:induction false} RepetitionIsPossibleIff(s: StepChange)
    requires StepChangeOk(s) && forall id :: id in MemberIds(s) ==> MemberId(id)
    ensures (exists w :: RepeatsAnApprover(w, s)) <==>
            |MemberIds(s)| < MAX_POLICY_APPROVERS && exists id :: id in MemberIds(s) && HasLetter(id)
  {
    if w :| RepeatsAnApprover(w, s) {
      RepetitionNeedsALetter(w, s);
    }
    if |MemberIds(s)| < MAX_POLICY_APPROVERS && exists id :: id in MemberIds(s) && HasLetter(id) {
      var k :| 0 <= k < |MemberIds(s)| && HasLetter(MemberIds(s)[k]);
      var id := MemberIds(s)[k];
      assert MemberId(id);
      RespelledIffLetter(id);
      var other :| Respelled(id, other);
      RepeatedAnswer(s, k, other);
    }
  }

  /** A faithful answer to one step. */
  function OwnAnswer(s: StepChange): StepWire {
    StepWire(s.name, s.requiredApprovals, Expected(s), None)
  }

  lemma {:induction false} OwnAnswerMatches(s: StepChange, index: nat)
    requires StepChangeOk(s) && s.stepNumber == index + 1 && forall id :: id in MemberIds(s) ==> MemberId(id)
    ensures StepWireOk(OwnAnswer(s)) && StepMatches(StepFromWire(OwnAnswer(s), index), s)
  {
    ExpectedIsLowered(s);
    EchoedStepIsOk(OwnAnswer(s), s);
  }

  /** An accepted and matching answer to a replacement that names some approver of a step more than
      once. */
  ghost predicate RepeatsInPolicy(w: PolicyWire, signerId: string, r: Replacement) {
    && PolicyFromWire(w, signerId).Some? && PolicyMatches(PolicyFromWire(w, signerId).value, r)
    && exists k :: 0 <= k < |r.steps| && !Distinct(Lowered(w.steps[k].approvers))
  }

  /** The step has room for one more approver and a letter in the identifier of some approver. */
  ghost predicate Repeatable(s: StepChange) {
    |MemberIds(s)| < MAX_POLICY_APPROVERS && exists id :: id in MemberIds(s) && HasLetter(id)
  }

  lemma {:induction false} RepeatedStepIsRepeatable(w: PolicyWire, signerId: string, r: Replacement)
    requires Constructible(r) && RepeatsInPolicy(w, signerId, r)
    ensures exists k :: 0 <= k < |r.steps| && Repeatable(r.steps[k])
  {
    var k :| 0 <= k < |r.steps| && !Distinct(Lowered(w.steps[k].approvers));
    assert StepChangeOk(r.steps[k]) && r.steps[k].stepNumber == k + 1 by {
      StepNumbersCount(r, k);
    }
    assert StepMatches(StepFromWire(w.steps[k], k), r.steps[k]);
    assert StepWireOk(w.steps[k]);
    RepetitionNeedsALetter(w.steps[k], r.steps[k]);
    assert Repeatable(r.steps[k]);
  }

  lemma {:induction false} StepNumbersCount(r: Replacement, k: nat)
    requires Constructible(r) && k < |r.steps|
    ensures StepChangeOk(r.steps[k]) && r.steps[k].stepNumber == k + 1
    ensures forall id :: id in MemberIds(r.steps[k]) ==> MemberId(id)
  {
  }

  /** The faithful answers to the steps, but for one step the given one. */
  function AnswersBut(r: Replacement, n: nat, w: StepWire): (steps: seq<StepWire>)
    ensures |steps| == |r.steps|
    ensures forall k :: 0 <= k < |steps| ==> steps[k] == if k == n then w else OwnAnswer(r.steps[k])
  {
    seq(|r.steps|, k requires 0 <= k < |r.steps| => if k == n then w else OwnAnswer(r.steps[k]))
  }

  lemma {:induction false} AnsweredPolicyMatches(r: Replacement, n: nat, w: StepWire, policyId: string,
                                                 signerId: string)
    requires Constructible(r) && n < |r.steps| && IsUuid(policyId)
    requires StepWireOk(w) && StepMatches(StepFromWire(w, n), r.steps[n])
    ensures
      var wire := PolicyWire(policyId, signerId, true, AnswersBut(r, n, w), r.constraints);
      PolicyFromWire(wire, signerId).Some? && PolicyMatches(PolicyFromWire(wire, signerId).value, r)
  {
    var steps := AnswersBut(r, n, w);
    forall k | 0 <= k < |steps|
      ensures StepWireOk(steps[k]) && StepMatches(StepFromWire(steps[k], k), r.steps[k])
    {
      if k != n {
        StepNumbersCount(r, k);
        OwnAnswerMatches(r.steps[k], k);
      }
    }
  }

  lemma {:induction false} RepeatingAnswer(r: Replacement, n: nat) returns (w: StepWire)
    requires Constructible(r) && n < |r.steps| && Repeatable(r.steps[n])
    ensures StepWireOk(w) && StepMatches(StepFromWire(w, n), r.steps[n]) && !Distinct(Lowered(w.approvers))
  {
    StepNumbersCount(r, n);
    RepetitionIsPossibleIff(r.steps[n]);
    w :| RepeatsAnApprover(w, r.steps[n]);
  }

  lemma {:induction false} RepeatedInPolicy(r: Replacement, n: nat, w: StepWire, policyId: string, signerId: string)
    requires Constructible(r) && n < |r.steps| && IsUuid(policyId)
    requires StepWireOk(w) && StepMatches(StepFromWire(w, n), r.steps[n]) && !Distinct(Lowered(w.approvers))
    ensures exists wire :: RepeatsInPolicy(wire, signerId, r)
  {
    AnsweredPolicyMatches(r, n, w, policyId, signerId);
    var wire := PolicyWire(policyId, signerId, true, AnswersBut(r, n, w), r.constraints);
    assert !Distinct(Lowered(wire.steps[n].approvers));
    assert RepeatsInPolicy(wire, signerId, r);
  }

  /** Which replacements can be answered with a repeated approver: exactly those with a step that has
      room for one more approver and a letter in some identifier. */
  lemma {:induction false} PolicyRepetitionIsPossibleIff(r: Replacement, policyId: string, signerId: string)
    requires Constructible(r) && IsUuid(policyId)
    ensures (exists w :: RepeatsInPolicy(w, signerId, r)) <==> exists k :: 0 <= k < |r.steps| && Repeatable(r.steps[k])
  {
    if w :| RepeatsInPolicy(w, signerId, r) {
      RepeatedStepIsRepeatable(w, signerId, r);
    }
    if n :| 0 <= n < |r.steps| && Repeatable(r.steps[n]) {
      var w := RepeatingAnswer(r, n);
      RepeatedInPolicy(r, n, w, policyId, signerId);
    }
  }

  // ---------- durations ----------

  const I64_MAX := 0x7FFF_FFFF_FFFF_FFFF

  function DigitCount(value: string): (n: nat)
    ensures n <= |value| && forall k :: 0 <= k < n ==> IsDigit(value[k])
    ensures n < |value| ==> !IsDigit(value[n])
  {
    if value == "" || !IsDigit(value[0]) then 0 else 1 + DigitCount(value[1..])
  }

  /** The number a digit string denotes, of any length. */
  function Amount(digits: string): nat
    requires forall k :: 0 <= k < |digits| ==> IsDigit(digits[k])
  {
    if digits == "" then 0
    else
      assert IsDigit(digits[|digits| - 1]);
      Amount(digits[..|digits| - 1]) * 10 + (digits[|digits| - 1] as int - '0' as int)
  }

  function Multiplier(suffix: string): Option<nat> {
    if suffix == "ms" then Some(1)
    else if suffix == "s" then Some(1_000)
    else if suffix == "m" then Some(60_000)
    else if suffix == "h" then Some(3_600_000)
    else if suffix == "d" then Some(86_400_000)
    else if suffix == "w" then Some(604_800_000)
    else None
  }

  predicate ValidPolicyDuration(value: string) {
    && value != "" && Utf8Length(value) <= MAX_POLICY_DURATION_BYTES && Trim(value) == value
    && DigitCount(value) != 0 && value[0] != '0'
    && Multiplier(value[DigitCount(value)..]).Some?
  }

  /** The length a valid duration names, without any bound. */
  function TrueMillis(value: string): nat
    requires ValidPolicyDuration(value)
  {
    Amount(value[..DigitCount(value)]) * Multiplier(value[DigitCount(value)..]).value
  }

  /** Parsing a 64-bit amount: digit by digit, giving up as soon as the value no longer fits. */
  function ParseI64(digits: string): (r: Option<nat>)
    requires forall k :: 0 <= k < |digits| ==> IsDigit(digits[k])
    ensures r.Some? ==> r.value <= I64_MAX
  {
    if digits == "" then None
    else
      assert IsDigit(digits[|digits| - 1]);
      var last: nat := digits[|digits| - 1] as int - '0' as int;
      if |digits| == 1 then Some(last)
      else
        match ParseI64(digits[..|digits| - 1])
        case None => None
        case Some(n) => if n * 10 + last <= I64_MAX then Some(n * 10 + last) else None
  }

  function PolicyDurationMillis(value: string): Option<nat> {
    var count := DigitCount(value);
    match ParseI64(value[..count])
    case None => None
    case Some(amount) =>
      match Multiplier(value[count..])
      case None => None
      case Some(factor) => if amount * factor <= I64_MAX then Some(amount * factor) else None
  }

  lemma {:induction false} ParseIsExact(digits: string)
    requires digits != "" && forall k :: 0 <= k < |digits| ==> IsDigit(digits[k])
    ensures ParseI64(digits) == if Amount(digits) <= I64_MAX then Some(Amount(digits)) else None
  {
    if |digits| == 1 {
      assert digits[..0] == "";
    } else {
      ParseIsExact(digits[..|digits| - 1]);
    }
  }

  /** For a valid duration the result is absent exactly when the true length exceeds 2^63 - 1, and
      otherwise is the true length. */
  lemma {:induction false} DurationIsExact(value: string)
    requires ValidPolicyDuration(value)
    ensures PolicyDurationMillis(value) == if TrueMillis(value) <= I64_MAX then Some(TrueMillis(value)) else None
  {
    var count := DigitCount(value);
    ParseIsExact(value[..count]);
    var amount, factor := Amount(value[..count]), Multiplier(value[count..]).value;
    ProductAtLeast(amount, factor);
  }

  lemma {:induction false} ProductAtLeast(amount: nat, factor: nat)
    requires 1 <= factor
    ensures amount <= amount * factor
  {
  }

  // ---------- requests against limits ----------

  datatype Window = Window(start: Option<string>, end: string)

  datatype Request = Request(requestedSignings: Option<nat>, window: Option<Window>)

  /** What the request constructor lets through of counts and windows. */
  predicate RequestOk(q: Request) {
    && (q.requestedSignings.Some? || q.window.Some?)
    && (q.requestedSignings.Some? ==> 1 <= q.requestedSignings.value <= MAX_POLICY_SIGNINGS)
    && (q.window.Some? ==>
          && UtcTimestampMillis(q.window.value.end).Some?
          && (q.window.value.start.Some? ==>
                && UtcTimestampMillis(q.window.value.start.value).Some?
                && UtcTimestampMillis(q.window.value.start.value).value < UtcTimestampMillis(q.window.value.end).value))
  }

  function WindowStart(w: Window, defaultStart: Option<nat>): Option<nat> {
    if w.start.Some? then UtcTimestampMillis(w.start.value) else defaultStart
  }

  function LimitsFit(q: Request, policy: Policy, defaultStart: Option<nat>): bool {
    if policy.steps == [] || (q.requestedSignings.Some? && policy.constraints.maxSignings.Some?
                              && q.requestedSignings.value > policy.constraints.maxSignings.value)
    then false
    else if q.window.None? then true
    else
      var maximum := if policy.constraints.maxWindowDuration.None? then None
                     else PolicyDurationMillis(policy.constraints.maxWindowDuration.value);
      if maximum.None? then true
      else
        match (UtcTimestampMillis(q.window.value.end), WindowStart(q.window.value, defaultStart))
        case (Some(end), Some(start)) => start < end && end - start <= maximum.value
        case _ => false
  }

  ghost predicate SigningsFit(q: Request, policy: Policy) {
    && policy.steps != []
    && (q.requestedSignings.Some? && policy.constraints.maxSignings.Some? ==>
          q.requestedSignings.value <= policy.constraints.maxSignings.value)
  }

  /** Which requests fit, exactly: a window is measured only against a limit that fits 64 bits. */
  lemma {:induction false} LimitsFitExactly(q: Request, policy: Policy, defaultStart: Option<nat>)
    requires RequestOk(q) && ConstraintsOk(policy.constraints, policy.steps != [])
    ensures
      var limit := policy.constraints.maxWindowDuration;
      LimitsFit(q, policy, defaultStart) <==>
      && SigningsFit(q, policy)
      && (q.window.None? || limit.None? || I64_MAX < TrueMillis(limit.value)
          || (var start := WindowStart(q.window.value, defaultStart);
              && start.Some?
              && start.value < UtcTimestampMillis(q.window.value.end).value <= start.value + TrueMillis(limit.value)))
  {
    if policy.constraints.maxWindowDuration.Some? {
      DurationIsExact(policy.constraints.maxWindowDuration.value);
    }
  }

  /** An accepted window is never longer than the policy's true limit, even where 64 bits overflow:
      no window between two timestamps is that long. */
  lemma {:induction false} AcceptedWindowIsWithinLimit(q: Request, policy: Policy, defaultStart: Option<nat>)
    requires RequestOk(q) && ConstraintsOk(policy.constraints, policy.steps != [])
    requires LimitsFit(q, policy, defaultStart) && q.window.Some? && policy.constraints.maxWindowDuration.Some?
    requires WindowStart(q.window.value, defaultStart).Some?
    ensures UtcTimestampMillis(q.window.value.end).value <=
            WindowStart(q.window.value, defaultStart).value + TrueMillis(policy.constraints.maxWindowDuration.value)
  {
    LimitsFitExactly(q, policy, defaultStart);
    TimestampBound(q.window.value.end);
  }
}
