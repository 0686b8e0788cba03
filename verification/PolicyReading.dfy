/** Which replacements can be built and which answers are read as policies, bound by bound. */
module PolicyReading {
  import opened Wrappers
  import opened TextTools
  import opened Resources
  import opened Sorting
  import opened Governance
  import opened PolicyWindows

  /** One to 64 bytes without control characters, and no white space at either end. */
  predicate NameFits(name: string) {
    && 0 < |name| && Utf8Length(name) <= 64
    && !IsWhitespace(name[0]) && !IsWhitespace(name[|name| - 1])
    && forall k :: 0 <= k < |name| ==> 0x20 <= name[k] as int && !(0x7F <= name[k] as int <= 0x9F)
  }

  /** Signings from one to a million, durations that name a length, and one of the two with steps. */
  ghost predicate LimitsNamed(c: Constraints, hasSteps: bool) {
    && (c.maxSignings.Some? ==> 1 <= c.maxSignings.value <= 1_000_000)
    && (c.maxWindowDuration.Some? ==> exists n, suffix, millis :: Names(c.maxWindowDuration.value, n, suffix, millis))
    && (hasSteps && c.maxSignings.None? ==> c.maxWindowDuration.Some?)
  }

  lemma {:induction false} NoControls(s: string)
    ensures (forall c :: c in s ==> !IsControl(c)) <==>
            forall k :: 0 <= k < |s| ==> 0x20 <= s[k] as int && !(0x7F <= s[k] as int <= 0x9F)
  {
    if forall c :: c in s ==> !IsControl(c) {
      forall k | 0 <= k < |s|
        ensures 0x20 <= s[k] as int && !(0x7F <= s[k] as int <= 0x9F)
      {
        assert s[k] in s && !IsControl(s[k]);
      }
    }
  }

  lemma {:induction false} NameIff(name: Option<string>)
    ensures NameOk(name) <==> name.None? || NameFits(name.value)
  {
    if name.Some? && name.value != "" {
      TrimmedIff(name.value);
      NoControls(name.value);
    }
  }

  lemma {:induction false} LimitsIff(c: Constraints, hasSteps: bool)
    ensures ConstraintsOk(c, hasSteps) <==> LimitsNamed(c, hasSteps)
  {
    if c.maxWindowDuration.Some? {
      DurationIff(c.maxWindowDuration.value);
    }
  }

  /** A step is built exactly within these bounds, from identifiers that are pairwise different. */
  lemma {:induction false} StepIff(s: StepChange)
    ensures StepChangeOk(s) <==>
            && 1 <= s.stepNumber <= 16 && (s.name.None? || NameFits(s.name.value))
            && 1 <= |s.userIds| + |s.groupIds| <= 64 && 1 <= s.requiredApprovals
            && (forall j, k :: 0 <= j < k < |s.userIds + s.groupIds| ==>
                  (s.userIds + s.groupIds)[j] != (s.userIds + s.groupIds)[k])
            && (|s.groupIds| == 0 ==> s.requiredApprovals <= |s.userIds|)
  {
    NameIff(s.name);
  }

  /** A replacement is built exactly from at most 16 steps numbered from one, and named limits; steps
      out of number are reported before limits. */
  lemma {:induction false} ReplacementIff(steps: seq<StepChange>, constraints: Constraints)
    ensures
      var numbered := |steps| <= 16 && forall k :: 0 <= k < |steps| ==> steps[k].stepNumber == k + 1;
      NewReplacement(steps, constraints)
      == if !numbered then Failure(InvalidPolicySteps)
         else if LimitsNamed(constraints, steps != []) then Success(Replacement(steps, constraints))
         else Failure(InvalidPolicyConstraints)
  {
    LimitsIff(constraints, steps != []);
  }

  /** A step of an answer: named alike, one to 64 different UUIDs, and a group or enough users. */
  ghost predicate StepReadable(s: StepWire) {
    && 1 <= s.requiredApprovals && 1 <= |s.approvers| <= 64 && (s.name.None? || NameFits(s.name.value))
    && (forall k :: 0 <= k < |s.approvers| ==> IsUuid(s.approvers[k].id))
    && (forall j, k :: 0 <= j < k < |s.approvers| ==> s.approvers[j].id != s.approvers[k].id)
    && (s.requiredApprovals > |s.approvers| ==> exists k :: 0 <= k < |s.approvers| && s.approvers[k].kind == Group)
  }

  ghost predicate PolicyReadable(w: PolicyWire, signerId: string) {
    && IsUuid(w.id) && w.signerId == signerId && w.hasSteps == (w.steps != []) && |w.steps| <= 16
    && LimitsNamed(w.constraints, w.steps != [])
    && forall k :: 0 <= k < |w.steps| ==> StepReadable(w.steps[k])
  }

  lemma {:induction false} SomeGroup(approvers: seq<Approver>)
    ensures (exists a :: a in approvers && a.kind.Group?) <==>
            exists k :: 0 <= k < |approvers| && approvers[k].kind == Group
  {
    if k :| 0 <= k < |approvers| && approvers[k].kind == Group {
      assert approvers[k] in approvers;
    }
  }

  lemma {:induction false} DistinctIdsIff(approvers: seq<Approver>)
    ensures Distinct(Ids(approvers)) <==>
            forall j, k :: 0 <= j < k < |approvers| ==> approvers[j].id != approvers[k].id
  {
    if Distinct(Ids(approvers)) {
      forall j, k | 0 <= j < k < |approvers|
        ensures approvers[j].id != approvers[k].id
      {
        assert Ids(approvers)[j] != Ids(approvers)[k];
      }
    }
  }

  lemma {:induction false} AllUuids(approvers: seq<Approver>)
    ensures (forall a :: a in approvers ==> IsUuid(a.id)) <==>
            forall k :: 0 <= k < |approvers| ==> IsUuid(approvers[k].id)
  {
    if forall a :: a in approvers ==> IsUuid(a.id) {
      forall k | 0 <= k < |approvers|
        ensures IsUuid(approvers[k].id)
      {
        assert approvers[k] in approvers;
      }
    }
  }

  lemma {:induction false} StepReadIff(s: StepWire)
    ensures StepWireOk(s) <==> StepReadable(s)
  {
    NameIff(s.name);
    SomeGroup(s.approvers);
    DistinctIdsIff(s.approvers);
    AllUuids(s.approvers);
  }

  /** What a policy read from an answer holds: the steps in order and numbered from one, approvers in
      order with their identifiers in lower case, and no notification unless it was asked for. */
  ghost predicate ReadAs(w: PolicyWire, p: Policy) {
    && p.id == w.id && p.signerId == w.signerId && p.constraints == w.constraints && |p.steps| == |w.steps|
    && forall k :: 0 <= k < |w.steps| ==>
         && p.steps[k].stepNumber == k + 1 && p.steps[k].name == w.steps[k].name
         && p.steps[k].requiredApprovals == w.steps[k].requiredApprovals
         && p.steps[k].notifyApprovers == (w.steps[k].notifyApprovers == Some(true))
         && |p.steps[k].approvers| == |w.steps[k].approvers|
         && forall j :: 0 <= j < |w.steps[k].approvers| ==>
              p.steps[k].approvers[j] == Approver(w.steps[k].approvers[j].kind, LowerAscii(w.steps[k].approvers[j].id))
  }

  lemma {:induction false} ReadStep(w: StepWire, index: nat, p: Step)
    ensures p == StepFromWire(w, index) <==>
            && p.stepNumber == index + 1 && p.name == w.name && p.requiredApprovals == w.requiredApprovals
            && p.notifyApprovers == (w.notifyApprovers == Some(true)) && |p.approvers| == |w.approvers|
            && forall j :: 0 <= j < |w.approvers| ==>
                 p.approvers[j] == Approver(w.approvers[j].kind, LowerAscii(w.approvers[j].id))
  {
    if |p.approvers| == |w.approvers|
       && forall j :: 0 <= j < |w.approvers| ==>
            p.approvers[j] == Approver(w.approvers[j].kind, LowerAscii(w.approvers[j].id))
    {
      assert p.approvers == Lowered(w.approvers);
    }
  }

  lemma {:induction false} ReadSteps(w: PolicyWire, p: Policy)
    ensures p == Policy(w.id, w.signerId, StepsFromWire(w.steps), w.constraints) <==> ReadAs(w, p)
  {
    forall k | 0 <= k < |w.steps| && |p.steps| == |w.steps|
      ensures p.steps[k] == StepsFromWire(w.steps)[k] <==> p.steps[k] == StepFromWire(w.steps[k], k)
    {
    }
    if |p.steps| == |w.steps| {
      forall k | 0 <= k < |w.steps| {
        ReadStep(w.steps[k], k, p.steps[k]);
      }
      if ReadAs(w, p) {
        assert p.steps == StepsFromWire(w.steps);
      }
    }
  }

  /** An answer is read as a policy exactly when it is readable, and as the one it spells. */
  lemma {:induction false} ReadIff(w: PolicyWire, signerId: string, p: Policy)
    ensures PolicyFromWire(w, signerId) == Some(p) <==> PolicyReadable(w, signerId) && ReadAs(w, p)
  {
    LimitsIff(w.constraints, w.steps != []);
    forall k | 0 <= k < |w.steps|
      ensures StepWireOk(w.steps[k]) <==> StepReadable(w.steps[k])
    {
      StepReadIff(w.steps[k]);
    }
    ReadSteps(w, p);
  }
}
