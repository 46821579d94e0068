/** Relationship standing with each villager (`SocialSystem` in
    rpg-vibe-2025/js/systems/social.js): XP earned with an NPC decides the
    status from a fixed ladder, except that Partner and Spouse are only ever
    kept, never reached by XP alone. */
module Social {
  import opened Common

  type NpcId = string

  datatype Status = Stranger | Acquaintance | Friend | GoodFriend | BestFriend | Partner | Spouse

  /** `THRESHOLDS`, in the order the status update walks them. */
  const Thresholds: seq<(Status, int)> := [
    (Stranger, 0), (Acquaintance, 20), (Friend, 60), (GoodFriend, 120),
    (BestFriend, 200), (Partner, 350), (Spouse, 600)]

  /** XP from which dating may start. */
  const DatingXp: int := 200
  /** XP granted on starting to date. */
  const DatingBonus: int := 50

  datatype Relationship = Relationship(xp: int, status: Status, giftsToday: int, talkedToday: bool)

  /** The record created on first contact. */
  const NewRelationship := Relationship(0, Stranger, 0, false)

  datatype Social = Social(relationships: map<NpcId, Relationship>)

  predicate Committed(s: Status) {
    s == Partner || s == Spouse
  }

  /** `getRelationship(npcId)`: creates the first-contact record when the NPC
      has none, and returns the stored record. */
  function GetRelationship(s: Social, npc: NpcId): (r: (Social, Relationship))
    ensures npc in r.0.relationships && r.1 == r.0.relationships[npc]
    ensures npc in s.relationships ==> r.0 == s
    ensures npc !in s.relationships ==>
              r.1 == NewRelationship && r.0.relationships == s.relationships[npc := NewRelationship]
  {
    if npc in s.relationships then (s, s.relationships[npc])
    else (Social(s.relationships[npc := NewRelationship]), NewRelationship)
  }

  /** One pass of the threshold walk: every reached threshold overwrites the
      candidate, except that Partner is skipped unless the current status is
      already committed, and Spouse unless it is already Spouse. */
  function Walk(ts: seq<(Status, int)>, xp: int, current: Status, candidate: Status): Status
  {
    if ts == [] then candidate
    else
      var (st, threshold) := ts[0];
      var skip := (st == Partner && !Committed(current)) || (st == Spouse && current != Spouse);
      var next := if xp >= threshold && !skip then st else candidate;
      Walk(ts[1..], xp, current, next)
  }

  /** The plain friendship ladder: the highest of the five non-committed
      statuses whose threshold is at most `xp`. */
  function Ladder(xp: int): Status
    requires xp >= 0
  {
    if xp >= 200 then BestFriend
    else if xp >= 120 then GoodFriend
    else if xp >= 60 then Friend
    else if xp >= 20 then Acquaintance
    else Stranger
  }

  /** What the status update yields, stated without the walk: negative XP
      reaches no threshold and keeps the status; a Spouse with 600 XP stays
      Spouse; a committed status with 350 XP is (or falls back to) Partner;
      everything else is the ladder. */
  function ExpectedStatus(xp: int, current: Status): Status {
    if xp < 0 then current
    else if current == Spouse && xp >= 600 then Spouse
    else if Committed(current) && xp >= 350 then Partner
    else Ladder(xp)
  }

  /** The walk over the fixed thresholds computes exactly ExpectedStatus. */
  lemma WalkMatchesExpected(xp: int, current: Status)
    ensures Walk(Thresholds, xp, current, current) == ExpectedStatus(xp, current)
  {
    var c := current;
    var t0 := Thresholds;
    var t1 := [(Acquaintance, 20), (Friend, 60), (GoodFriend, 120), (BestFriend, 200), (Partner, 350), (Spouse, 600)];
    var t2 := [(Friend, 60), (GoodFriend, 120), (BestFriend, 200), (Partner, 350), (Spouse, 600)];
    var t3 := [(GoodFriend, 120), (BestFriend, 200), (Partner, 350), (Spouse, 600)];
    var t4 := [(BestFriend, 200), (Partner, 350), (Spouse, 600)];
    var t5 := [(Partner, 350), (Spouse, 600)];
    var t6 := [(Spouse, 600)];
    assert t0[1..] == t1 && t1[1..] == t2 && t2[1..] == t3 && t3[1..] == t4;
    assert t4[1..] == t5 && t5[1..] == t6 && t6[1..] == [];
    var c1 := if xp >= 0 then Stranger else c;
    var c2 := if xp >= 20 then Acquaintance else c1;
    var c3 := if xp >= 60 then Friend else c2;
    var c4 := if xp >= 120 then GoodFriend else c3;
    var c5 := if xp >= 200 then BestFriend else c4;
    var c6 := if xp >= 350 && Committed(c) then Partner else c5;
    var c7 := if xp >= 600 && c == Spouse then Spouse else c6;
    assert Walk(t0, xp, c, c) == Walk(t1, xp, c, c1);
    assert Walk(t1, xp, c, c1) == Walk(t2, xp, c, c2);
    assert Walk(t2, xp, c, c2) == Walk(t3, xp, c, c3);
    assert Walk(t3, xp, c, c3) == Walk(t4, xp, c, c4);
    assert Walk(t4, xp, c, c4) == Walk(t5, xp, c, c5);
    assert Walk(t5, xp, c, c5) == Walk(t6, xp, c, c6);
    assert Walk(t6, xp, c, c6) == Walk([], xp, c, c7);
  }

  /** `updateStatus(npcId)`: recomputes the NPC's status and reports whether
      it changed. */
  function UpdateStatus(s: Social, npc: NpcId): (r: (Social, bool))
    ensures npc in r.0.relationships
    ensures var old_ := GetRelationship(s, npc).1;
            var new_ := r.0.relationships[npc];
            && new_ == old_.(status := ExpectedStatus(old_.xp, old_.status))
            && (r.1 <==> new_.status != old_.status)
    ensures r.0.relationships - {npc} == s.relationships - {npc}
  {
    var (s1, rel) := GetRelationship(s, npc);
    var next := Walk(Thresholds, rel.xp, rel.status, rel.status);
    WalkMatchesExpected(rel.xp, rel.status);
    if next != rel.status then
      (Social(s1.relationships[npc := rel.(status := next)]), true)
    else (s1, false)
  }

  /** `addXP(npcId, amount)`: adds exactly `amount` and returns the status
      after the update. */
  function AddXP(s: Social, npc: NpcId, amount: int): (r: (Social, Status))
    ensures npc in r.0.relationships
    ensures var old_ := GetRelationship(s, npc).1;
            var new_ := r.0.relationships[npc];
            && new_.xp == old_.xp + amount
            && new_.status == ExpectedStatus(new_.xp, old_.status)
            && r.1 == new_.status
    ensures r.0.relationships - {npc} == s.relationships - {npc}
  {
    var (s1, rel) := GetRelationship(s, npc);
    var s2 := Social(s1.relationships[npc := rel.(xp := rel.xp + amount)]);
    var (s3, _) := UpdateStatus(s2, npc);
    (s3, s3.relationships[npc].status)
  }

  /** `canDate(npcId)` (which, like every accessor here, creates the record
      on first contact). */
  function CanDate(s: Social, npc: NpcId): (r: (Social, bool))
    ensures r.0 == GetRelationship(s, npc).0
    ensures var rel := GetRelationship(s, npc).1;
            r.1 <==> rel.xp >= DatingXp && !Committed(rel.status)
  {
    var (s1, rel) := GetRelationship(s, npc);
    (s1, rel.xp >= DatingXp && rel.status != Partner && rel.status != Spouse)
  }

  /** `startDating(npcId)`: succeeds exactly when dating is possible, making
      the NPC a Partner and adding 50 XP; otherwise only the first-contact
      record may have been created. */
  function StartDating(s: Social, npc: NpcId): (r: (Social, bool))
    ensures r.1 <==> CanDate(s, npc).1
    ensures var rel := GetRelationship(s, npc).1;
            r.1 ==> r.0.relationships == s.relationships[npc := rel.(status := Partner, xp := rel.xp + DatingBonus)]
    ensures !r.1 ==> r.0 == GetRelationship(s, npc).0
  {
    var (s1, ok) := CanDate(s, npc);
    if ok then
      var rel := s1.relationships[npc];
      (Social(s1.relationships[npc := rel.(status := Partner, xp := rel.xp + DatingBonus)]), true)
    else (s1, false)
  }

  /** XP alone never makes a Partner or a Spouse. */
  lemma NoAutomaticCommitment(s: Social, npc: NpcId)
    ensures var before := GetRelationship(s, npc).1.status;
            var after := UpdateStatus(s, npc).0.relationships[npc].status;
            && (after == Partner ==> Committed(before))
            && (after == Spouse ==> before == Spouse)
  {
  }

  /** A Partner whose XP is below 350 (and at least 200) is demoted to Best
      Friend by the next update. */
  lemma PartnerFallsBack(s: Social, npc: NpcId)
    requires npc in s.relationships
    requires s.relationships[npc].status == Partner
    requires 200 <= s.relationships[npc].xp < 350
    ensures UpdateStatus(s, npc).0.relationships[npc].status == BestFriend
    ensures UpdateStatus(s, npc).1
  {
  }

  /** Starting to date from 200 XP leaves the NPC a Partner with 250 XP, which
      the next status update turns back into Best Friend. */
  lemma DatingDoesNotSurviveUpdate(s: Social, npc: NpcId)
    requires npc in s.relationships
    requires s.relationships[npc] == Relationship(200, BestFriend, 0, false)
    ensures StartDating(s, npc).1
    ensures UpdateStatus(StartDating(s, npc).0, npc).0.relationships[npc].status == BestFriend
  {
  }

  /** A second access finds the record the first one created. */
  lemma GetRelationshipIdempotent(s: Social, npc: NpcId)
    ensures var (s1, rel) := GetRelationship(s, npc);
            GetRelationship(s1, npc) == (s1, rel)
  {
  }
}
