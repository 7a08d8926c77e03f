/**
 The department tree. Rows are never removed, only marked as deleted; every query here looks at
 active rows. Names and keywords are compared after case folding, so both are folded strings here.
 */
module Departments {
  import opened Basics

  datatype Department = Department(name: string, parent: Option<nat>, deleted: bool)

  type Rows = map<nat, Department>

  predicate Active(rows: Rows, id: nat) {
    id in rows && !rows[id].deleted
  }

  function Up(rows: Rows, at: Option<nat>): Option<nat> {
    if at.Some? && Active(rows, at.value) then rows[at.value].parent else None
  }

  /** `k` steps up from `at`. */
  function Climb(rows: Rows, at: Option<nat>, k: nat): Option<nat>
    decreases k
  {
    if k == 0 then at else Climb(rows, Up(rows, at), k - 1)
  }

  ghost predicate Ends(rows: Rows, at: Option<nat>) {
    exists k: nat :: Climb(rows, at, k) == None
  }

  /** `id` is in the subtree of `root`. */
  ghost predicate InSubtree(rows: Rows, root: nat, id: nat) {
    exists k: nat :: Climb(rows, Some(id), k) == Some(root)
  }

  /** An active department has an active parent or none, and its ancestors end at a root. */
  ghost predicate Rooted(rows: Rows, id: nat) {
    Active(rows, id) ==>
      && (rows[id].parent.Some? ==> Active(rows, rows[id].parent.value))
      && Ends(rows, Some(id))
  }

  ghost predicate Forest(rows: Rows) {
    forall id :: Rooted(rows, id)
  }

  lemma {:induction false} ClimbUp(rows: Rows, at: Option<nat>, k: nat)
    ensures Climb(rows, at, k + 1) == Up(rows, Climb(rows, at, k))
    decreases k
  {
    if k > 0 {
      ClimbUp(rows, Up(rows, at), k - 1);
    }
  }

  // ---------------------------------------------------------------------------------------------
  // Edits of one row
  // ---------------------------------------------------------------------------------------------

  /** Chains still end when one department moves to a place from which its own chain ends. */
  lemma {:induction false} ChainsStillEnd(rows: Rows, moved: Rows, id: nat, at: Option<nat>, k: nat)
    requires forall y :: y != Some(id) ==> Up(moved, y) == Up(rows, y)
    requires Ends(moved, Some(id)) && Climb(rows, at, k) == None
    ensures Ends(moved, at)
    decreases k
  {
    if k == 0 {
      assert Climb(moved, at, 0) == None;
    } else if at != Some(id) {
      ChainsStillEnd(rows, moved, id, Up(rows, at), k - 1);
      var m: nat :| Climb(moved, Up(moved, at), m) == None;
      assert Climb(moved, at, m + 1) == None;
    }
  }

  /** A chain that does not meet a department is not changed by moving it. */
  lemma {:induction false} ChainElsewhere(rows: Rows, moved: Rows, id: nat, at: Option<nat>, k: nat)
    requires forall y :: y != Some(id) ==> Up(moved, y) == Up(rows, y)
    requires forall j: nat :: Climb(rows, at, j) != Some(id)
    ensures Climb(moved, at, k) == Climb(rows, at, k)
    decreases k
  {
    if k > 0 {
      assert Climb(rows, at, 0) != Some(id);
      forall j: nat ensures Climb(rows, Up(rows, at), j) != Some(id) {
        assert Climb(rows, at, j + 1) != Some(id);
      }
      ChainElsewhere(rows, moved, id, Up(rows, at), k - 1);
    }
  }

  /** The new parent is active and not in the subtree of the department that moves. */
  ghost predicate Accepts(rows: Rows, id: nat, parent: Option<nat>) {
    parent.Some? ==> Active(rows, parent.value) && !InSubtree(rows, id, parent.value)
  }

  lemma MovedChainEnds(rows: Rows, moved: Rows, id: nat, parent: Option<nat>)
    requires Forest(rows) && Accepts(rows, id, parent)
    requires forall y :: y != Some(id) ==> Up(moved, y) == Up(rows, y)
    requires Up(moved, Some(id)) == parent
    ensures Ends(moved, Some(id))
  {
    assert Climb(moved, Some(id), 1) == Climb(moved, parent, 0);
    if parent.Some? {
      assert Rooted(rows, parent.value);
      var k: nat :| Climb(rows, parent, k) == None;
      ChainElsewhere(rows, moved, id, parent, k);
      assert Climb(moved, Some(id), k + 1) == None;
    }
  }

  /** Giving one department, new or old, an accepted parent keeps the forest. */
  lemma MoveKeepsForest(rows: Rows, id: nat, d: Department)
    requires Forest(rows) && Accepts(rows, id, d.parent) && !d.deleted
    requires id in rows ==> Active(rows, id)
    ensures Forest(rows[id := d])
  {
    var moved := rows[id := d];
    MovedChainEnds(rows, moved, id, d.parent);
    forall x ensures Rooted(moved, x) {
      assert Rooted(rows, x);
      if Active(moved, x) && x != id {
        var k: nat :| Climb(rows, Some(x), k) == None;
        ChainsStillEnd(rows, moved, id, Some(x), k);
      }
    }
  }

  lemma {:induction false} ClimbStaysActive(rows: Rows, at: Option<nat>, k: nat)
    requires Forest(rows) && (at.Some? ==> Active(rows, at.value))
    ensures Climb(rows, at, k).Some? ==> Active(rows, Climb(rows, at, k).value)
    decreases k
  {
    if k > 0 {
      if at.Some? { assert Rooted(rows, at.value); }
      ClimbStaysActive(rows, Up(rows, at), k - 1);
    }
  }

  /** A department that does not exist yet has no subtree. */
  lemma NewIsAccepted(rows: Rows, id: nat, parent: Option<nat>)
    requires Forest(rows) && id !in rows && (parent.Some? ==> Active(rows, parent.value))
    ensures Accepts(rows, id, parent)
  {
    if parent.Some? {
      forall k: nat ensures Climb(rows, parent, k) != Some(id) {
        ClimbStaysActive(rows, parent, k);
      }
    }
  }

  predicate HasActiveChild(rows: Rows, id: nat) {
    exists child <- rows :: !rows[child].deleted && rows[child].parent == Some(id)
  }

  lemma DeleteKeepsForest(rows: Rows, id: nat)
    requires Forest(rows) && Active(rows, id) && !HasActiveChild(rows, id)
    ensures Forest(rows[id := rows[id].(deleted := true)])
  {
    var without := rows[id := rows[id].(deleted := true)];
    assert Climb(without, Some(id), 1) == Climb(without, None, 0);
    forall x ensures Rooted(without, x) {
      assert Rooted(rows, x);
      if Active(without, x) {
        var k: nat :| Climb(rows, Some(x), k) == None;
        ChainsStillEnd(rows, without, id, Some(x), k);
      }
    }
  }

  // ---------------------------------------------------------------------------------------------
  // Walking up
  // ---------------------------------------------------------------------------------------------

  /** A walk from `start` that has visited `seen` and stands at `cursor`. */
  ghost predicate Walk(rows: Rows, start: nat, cursor: Option<nat>, seen: set<nat>) {
    && (start in seen || cursor == Some(start))
    && (forall x <- seen :: InSubtree(rows, x, start))
    && (forall x <- seen :: Up(rows, Some(x)).None? || Up(rows, Some(x)).value in seen || Up(rows, Some(x)) == cursor)
    && (cursor.Some? ==> InSubtree(rows, cursor.value, start))
  }

  lemma WalkStarts(rows: Rows, start: nat)
    ensures Walk(rows, start, Some(start), {})
  {
    assert Climb(rows, Some(start), 0) == Some(start);
  }

  lemma WalkStep(rows: Rows, start: nat, at: nat, seen: set<nat>)
    requires Walk(rows, start, Some(at), seen)
    ensures Walk(rows, start, Up(rows, Some(at)), seen + {at})
  {
    var k: nat :| Climb(rows, Some(start), k) == Some(at);
    ClimbUp(rows, Some(start), k);
    var up := Up(rows, Some(at));
    if up.Some? {
      assert Climb(rows, Some(start), k + 1) == up;
    }
  }

  /** A walk that has nowhere new to go has visited every ancestor, on cyclic rows as well. */
  lemma {:induction false} WalkIsComplete(rows: Rows, start: nat, cursor: Option<nat>, seen: set<nat>, k: nat)
    requires Walk(rows, start, cursor, seen) && (cursor.None? || cursor.value in seen)
    ensures Climb(rows, Some(start), k).Some? ==> Climb(rows, Some(start), k).value in seen
    decreases k
  {
    if k > 0 {
      WalkIsComplete(rows, start, cursor, seen, k - 1);
      ClimbUp(rows, Some(start), k - 1);
    }
  }

  lemma WalkedAncestors(rows: Rows, start: nat, cursor: Option<nat>, seen: set<nat>)
    requires Walk(rows, start, cursor, seen) && (cursor.None? || cursor.value in seen)
    ensures forall x :: InSubtree(rows, x, start) <==> x in seen
  {
    forall x | InSubtree(rows, x, start) ensures x in seen {
      var k: nat :| Climb(rows, Some(start), k) == Some(x);
      WalkIsComplete(rows, start, cursor, seen, k);
    }
  }

  // ---------------------------------------------------------------------------------------------
  // Listing with a keyword
  // ---------------------------------------------------------------------------------------------

  predicate Contains(name: string, needle: string)
    decreases |name|
  {
    needle <= name || (name != [] && Contains(name[1..], needle))
  }

  lemma {:induction false} ContainsSomewhere(name: string, needle: string)
    ensures Contains(name, needle) <==> exists before, after :: name == before + needle + after
    decreases |name|
  {
    if needle <= name {
      assert name == [] + needle + name[|needle|..];
    } else if name != [] {
      ContainsSomewhere(name[1..], needle);
      if Contains(name[1..], needle) {
        var before, after :| name[1..] == before + needle + after;
        assert name == ([name[0]] + before) + needle + after;
      }
      forall before, after | name == before + needle + after ensures Contains(name, needle) {
        if before != [] {
          assert name[1..] == before[1..] + needle + after;
        }
      }
    }
  }

  predicate Matches(rows: Rows, needle: string, id: nat) {
    Active(rows, id) && Contains(rows[id].name, needle)
  }

  /** Department `x` is active, and it or one below it is a match. */
  ghost predicate Relevant(rows: Rows, needle: string, x: nat) {
    Active(rows, x) && exists m :: Matches(rows, needle, m) && InSubtree(rows, x, m)
  }

  ghost function MatchesAndAncestors(rows: Rows, needle: string): set<nat> {
    set x | x in rows && Relevant(rows, needle, x)
  }

  /** The elements of `ids` that are in `kept`, in their order. */
  ghost function Keep(ids: seq<nat>, kept: set<nat>): seq<nat>
    decreases |ids|
  {
    if ids == [] then []
    else if ids[|ids| - 1] in kept then Keep(ids[..|ids| - 1], kept) + [ids[|ids| - 1]]
    else Keep(ids[..|ids| - 1], kept)
  }

  /** Keeping drops what is not kept, and nothing else changes place. */
  lemma {:induction false} KeepIsInOrder(ids: seq<nat>, kept: set<nat>, i: nat)
    requires i < |ids| && ids[i] in kept
    ensures var before := |Keep(ids[..i], kept)|;
            && before < |Keep(ids, kept)| && Keep(ids, kept)[before] == ids[i]
            && Keep(ids, kept)[..before] == Keep(ids[..i], kept)
    decreases |ids|
  {
    var n := |ids| - 1;
    if i < n {
      KeepIsInOrder(ids[..n], kept, i);
      assert ids[..n][..i] == ids[..i];
    }
  }

  lemma {:induction false} KeepIsFilter(ids: seq<nat>, kept: set<nat>, x: nat)
    ensures x in Keep(ids, kept) <==> x in ids && x in kept
    decreases |ids|
  {
    if ids != [] {
      var n := |ids| - 1;
      KeepIsFilter(ids[..n], kept, x);
      assert ids == ids[..n] + [ids[n]];
    }
  }

  /** All active departments, each once. */
  ghost predicate ListsAll(rows: Rows, ids: seq<nat>) {
    && (forall x :: x in ids <==> Active(rows, x))
    && forall i, j :: 0 <= i < j < |ids| ==> ids[i] != ids[j]
  }

  // ---------------------------------------------------------------------------------------------
  // The service
  // ---------------------------------------------------------------------------------------------

  datatype Status = Done | NotFound | BadRequest

  predicate Deletable(rows: Rows, occupied: set<nat>, id: nat) {
    Active(rows, id) && !HasActiveChild(rows, id) && id !in occupied
  }

  function Delete(rows: Rows, occupied: set<nat>, id: nat): Rows {
    if Deletable(rows, occupied, id) then rows[id := rows[id].(deleted := true)] else rows
  }

  function DeleteEach(rows: Rows, occupied: set<nat>, ids: seq<nat>): Rows
    decreases |ids|
  {
    if ids == [] then rows else DeleteEach(Delete(rows, occupied, ids[0]), occupied, ids[1..])
  }

  /** The ids that are not deletable when their turn comes. */
  function Skipped(rows: Rows, occupied: set<nat>, ids: seq<nat>): seq<nat>
    decreases |ids|
  {
    if ids == [] then []
    else
      var rest := Skipped(Delete(rows, occupied, ids[0]), occupied, ids[1..]);
      if Deletable(rows, occupied, ids[0]) then rest else [ids[0]] + rest
  }

  /** `ids` without repetitions, in the order of first occurrence. */
  function Distinct(ids: seq<nat>): (r: seq<nat>)
    ensures forall x :: x in r <==> x in ids
    ensures forall i, j :: 0 <= i < j < |r| ==> r[i] != r[j]
    decreases |ids|
  {
    if ids == [] then []
    else
      var r := Distinct(ids[..|ids| - 1]);
      assert ids == ids[..|ids| - 1] + [ids[|ids| - 1]];
      if ids[|ids| - 1] in r then r else r + [ids[|ids| - 1]]
  }

  ghost function UpdateStatus(rows: Rows, id: nat, parent: Option<Option<nat>>): Status {
    if !Active(rows, id) then NotFound
    else if parent.Some? && !Accepts(rows, id, parent.value) then BadRequest
    else Done
  }

  function Updated(rows: Rows, id: nat, name: Option<string>, parent: Option<Option<nat>>): Rows
    requires id in rows
  {
    var d := rows[id];
    rows[id := Department(if name.Some? then name.value else d.name,
                          if parent.Some? then parent.value else d.parent, d.deleted)]
  }

  /** Department `x` is active, and one of `among` is a match at or below it. */
  ghost predicate RelevantTo(rows: Rows, needle: string, among: seq<nat>, x: nat) {
    Active(rows, x) && exists m :: m in among && Matches(rows, needle, m) && InSubtree(rows, x, m)
  }

  lemma OneMore(rows: Rows, needle: string, among: seq<nat>, id: nat)
    ensures forall x :: RelevantTo(rows, needle, among + [id], x) <==>
              RelevantTo(rows, needle, among, x)
              || (Active(rows, x) && Matches(rows, needle, id) && InSubtree(rows, x, id))
  {
    forall x
      | RelevantTo(rows, needle, among, x) || (Active(rows, x) && Matches(rows, needle, id) && InSubtree(rows, x, id))
      ensures RelevantTo(rows, needle, among + [id], x)
    {
      if RelevantTo(rows, needle, among, x) {
        var m :| m in among && Matches(rows, needle, m) && InSubtree(rows, x, m);
        assert m in among + [id];
      } else {
        assert id in among + [id];
      }
    }
  }

  /** In a forest nobody's parent is in its own subtree. */
  lemma OwnParentIsAccepted(rows: Rows, id: nat)
    requires Forest(rows) && Active(rows, id)
    ensures Accepts(rows, id, rows[id].parent)
  {
    assert Rooted(rows, id);
    if rows[id].parent.Some? && InSubtree(rows, id, rows[id].parent.value) {
      var back: nat :| Climb(rows, rows[id].parent, back) == Some(id);
      var k: nat :| Climb(rows, Some(id), k) == None;
      NeverEnds(rows, id, back + 1, k);
    }
  }

  lemma {:induction false} ClimbAdds(rows: Rows, at: Option<nat>, j: nat, k: nat)
    ensures Climb(rows, at, j + k) == Climb(rows, Climb(rows, at, j), k)
    decreases j
  {
    if j > 0 { ClimbAdds(rows, Up(rows, at), j - 1, k); }
  }

  lemma {:induction false} NothingAbove(rows: Rows, k: nat)
    ensures Climb(rows, None, k) == None
    decreases k
  {
    if k > 0 { NothingAbove(rows, k - 1); }
  }

  /** A chain that comes back to its start does not end. */
  lemma {:induction false} NeverEnds(rows: Rows, id: nat, period: nat, k: nat)
    requires period > 0 && Climb(rows, Some(id), period) == Some(id)
    ensures Climb(rows, Some(id), k).Some?
    decreases k
  {
    if k >= period {
      ClimbAdds(rows, Some(id), period, k - period);
      NeverEnds(rows, id, period, k - period);
    } else if Climb(rows, Some(id), k).None? {
      ClimbAdds(rows, Some(id), k, period - k);
      NothingAbove(rows, period - k);
    }
  }

  class DepartmentService {
    var rows: Rows
    /** The departments with active members. */
    var occupied: set<nat>

    constructor ()
      ensures rows == map[] && occupied == {}
    {
      rows, occupied := map[], {};
    }

    method CreateDepartment(id: nat, name: string, parent: Option<nat>) returns (status: Status)
      requires id !in rows
      modifies this`rows
      ensures status == if parent.Some? && !Active(old(rows), parent.value) then BadRequest else Done
      ensures rows == if status.Done? then old(rows)[id := Department(name, parent, false)] else old(rows)
    {
      if parent.Some? && !Active(rows, parent.value) {
        return BadRequest;
      }
      rows := rows[id := Department(name, parent, false)];
      return Done;
    }

    /** The walk up from the new parent, which ends on any rows. */
    method ValidateReparent(id: nat, parent: Option<nat>) returns (ok: bool)
      ensures ok <==> Accepts(rows, id, parent)
    {
      if parent.None? {
        return true;
      }
      WalkStarts(rows, parent.value);
      if parent == Some(id) {
        return false;
      }
      if !Active(rows, parent.value) {
        return false;
      }
      var cursor, seen := parent, {};
      while cursor.Some? && cursor.value !in seen
        invariant Walk(rows, parent.value, cursor, seen) && id !in seen
        decreases rows.Keys - seen, cursor.Some?
      {
        if cursor.value == id {
          return false;
        }
        WalkStep(rows, parent.value, cursor.value, seen);
        var at := cursor.value;
        assert at in rows ==> rows.Keys - (seen + {at}) < rows.Keys - seen;
        seen := seen + {at};
        cursor := if Active(rows, at) then rows[at].parent else None;
      }
      WalkedAncestors(rows, parent.value, cursor, seen);
      return true;
    }

    method UpdateDepartment(id: nat, name: Option<string>, parent: Option<Option<nat>>) returns (status: Status)
      modifies this`rows
      ensures status == UpdateStatus(old(rows), id, parent)
      ensures rows == if status.Done? then Updated(old(rows), id, name, parent) else old(rows)
      ensures status.NotFound? <==> id !in old(rows) || old(rows)[id].deleted
      ensures status.BadRequest? <==> Active(old(rows), id) && parent.Some? && !Accepts(old(rows), id, parent.value)
      ensures status.Done? ==>
                rows == old(rows)[id := Department(if name.Some? then name.value else old(rows)[id].name,
                                                   if parent.Some? then parent.value else old(rows)[id].parent, false)]
    {
      if !Active(rows, id) {
        return NotFound;
      }
      if parent.Some? {
        var ok := ValidateReparent(id, parent.value);
        if !ok {
          return BadRequest;
        }
        rows := rows[id := rows[id].(parent := parent.value)];
      }
      if name.Some? {
        rows := rows[id := rows[id].(name := name.value)];
      }
      return Done;
    }

    method DeleteDepartment(id: nat) returns (status: Status)
      modifies this`rows
      ensures rows == Delete(old(rows), occupied, id)
      ensures status == if !Active(old(rows), id) then NotFound
                        else if Deletable(old(rows), occupied, id) then Done else BadRequest
      ensures status.NotFound? <==> id !in old(rows) || old(rows)[id].deleted
      ensures status.Done? <==>
                && id in old(rows) && !old(rows)[id].deleted && id !in occupied
                && (forall child <- old(rows) :: !old(rows)[child].deleted ==> old(rows)[child].parent != Some(id))
      ensures rows == if status.Done? then old(rows)[id := old(rows)[id].(deleted := true)] else old(rows)
    {
      if !Active(rows, id) {
        return NotFound;
      }
      if HasActiveChild(rows, id) {
        return BadRequest;
      }
      if id in occupied {
        return BadRequest;
      }
      rows := rows[id := rows[id].(deleted := true)];
      return Done;
    }

    method BatchDelete(ids: seq<nat>) returns (requested: nat, affected: nat, skipped: seq<nat>)
      modifies this`rows
      ensures rows == DeleteEach(old(rows), occupied, Distinct(ids))
      ensures skipped == Skipped(old(rows), occupied, Distinct(ids))
      ensures requested == |Distinct(ids)| == affected + |skipped|
    {
      var todo := Distinct(ids);
      requested, affected, skipped := |todo|, 0, [];
      for i := 0 to |todo|
        invariant DeleteEach(old(rows), occupied, todo) == DeleteEach(rows, occupied, todo[i..])
        invariant Skipped(old(rows), occupied, todo) == skipped + Skipped(rows, occupied, todo[i..])
        invariant affected + |skipped| == i
      {
        var id := todo[i];
        assert todo[i..][1..] == todo[i + 1..];
        Associate(skipped, id, Skipped(rows, occupied, todo[i + 1..]));
        if !Active(rows, id) {
          skipped := skipped + [id];
          continue;
        }
        if HasActiveChild(rows, id) {
          skipped := skipped + [id];
          continue;
        }
        if id in occupied {
          skipped := skipped + [id];
          continue;
        }
        rows := rows[id := rows[id].(deleted := true)];
        affected := affected + 1;
      }
      assert skipped + [] == skipped;
    }

    /** `departments` is the query for all active rows; the result keeps its order. */
    method ListDepartments(departments: seq<nat>, keyword: Option<string>) returns (listed: seq<nat>)
      requires ListsAll(rows, departments)
      ensures keyword.None? ==> listed == departments
      ensures keyword.Some? ==> listed == Keep(departments, MatchesAndAncestors(rows, keyword.value))
    {
      if keyword.None? {
        return departments;
      }
      var included: set<nat> := {};
      for i := 0 to |departments|
        invariant forall x :: x in included <==> RelevantTo(rows, keyword.value, departments[..i], x)
      {
        var id := departments[i];
        assert Active(rows, id) by { assert id in departments; }
        OneMore(rows, keyword.value, departments[..i], id);
        assert departments[..i + 1] == departments[..i] + [id];
        if !Contains(rows[id].name, keyword.value) {
          continue;
        }
        ghost var before := included;
        WalkStarts(rows, id);
        var cursor, seen := Some(id), {};
        while cursor.Some? && cursor.value !in seen
          invariant Walk(rows, id, cursor, seen)
          invariant forall x :: x in included <==> x in before || (x in seen && Active(rows, x))
          decreases rows.Keys - seen, cursor.Some?
        {
          WalkStep(rows, id, cursor.value, seen);
          seen := seen + {cursor.value};
          if !Active(rows, cursor.value) {
            break;
          }
          included := included + {cursor.value};
          cursor := rows[cursor.value].parent;
        }
        WalkedAncestors(rows, id, cursor, seen);
      }
      assert departments[..|departments|] == departments;
      assert included == MatchesAndAncestors(rows, keyword.value);
      listed := [];
      for i := 0 to |departments|
        invariant listed == Keep(departments[..i], included)
      {
        assert departments[..i + 1][..i] == departments[..i];
        if departments[i] in included {
          listed := listed + [departments[i]];
        }
      }
    }
  }

  // ---------------------------------------------------------------------------------------------
  // All runs
  // ---------------------------------------------------------------------------------------------

  datatype Event =
    | Create(id: nat, name: string, createUnder: Option<nat>)
    | Update(id: nat, rename: Option<string>, reparent: Option<Option<nat>>)
    | DeleteOne(id: nat)
    | DeleteMany(ids: seq<nat>)
    | Occupy(departments: set<nat>)

  datatype Org = Org(rows: Rows, occupied: set<nat>)

  /** One operation as a whole; ids of new departments are new, and members come and go. */
  ghost function Act(org: Org, e: Event): Org {
    match e
    case Create(id, name, parent) =>
      if id !in org.rows && (parent.Some? ==> Active(org.rows, parent.value))
      then org.(rows := org.rows[id := Department(name, parent, false)]) else org
    case Update(id, name, parent) =>
      if UpdateStatus(org.rows, id, parent).Done? then org.(rows := Updated(org.rows, id, name, parent)) else org
    case DeleteOne(id) => org.(rows := Delete(org.rows, org.occupied, id))
    case DeleteMany(ids) => org.(rows := DeleteEach(org.rows, org.occupied, Distinct(ids)))
    case Occupy(departments) => org.(occupied := departments)
  }

  ghost function After(org: Org, events: seq<Event>): Org
    decreases |events|
  {
    if events == [] then org else After(Act(org, events[0]), events[1..])
  }

  /** A sequence of operations is one after the other. */
  lemma {:induction false} RunGoesOn(org: Org, events: seq<Event>, e: Event)
    ensures After(org, events + [e]) == Act(After(org, events), e)
    decreases |events|
  {
    if events == [] {
      assert events + [e] == [e] && [e][1..] == [];
      assert After(Act(org, e), []) == Act(org, e);
    } else {
      assert (events + [e])[1..] == events[1..] + [e];
      RunGoesOn(Act(org, events[0]), events[1..], e);
    }
  }

  lemma {:induction false} BatchKeepsForest(rows: Rows, occupied: set<nat>, ids: seq<nat>)
    requires Forest(rows)
    ensures Forest(DeleteEach(rows, occupied, ids))
    decreases |ids|
  {
    if ids != [] {
      if Deletable(rows, occupied, ids[0]) { DeleteKeepsForest(rows, ids[0]); }
      BatchKeepsForest(Delete(rows, occupied, ids[0]), occupied, ids[1..]);
    }
  }

  lemma UpdateKeepsForest(rows: Rows, id: nat, name: Option<string>, parent: Option<Option<nat>>)
    requires Forest(rows) && UpdateStatus(rows, id, parent).Done?
    ensures Forest(Updated(rows, id, name, parent))
  {
    if parent.None? { OwnParentIsAccepted(rows, id); }
    MoveKeepsForest(rows, id, Updated(rows, id, name, parent)[id]);
  }

  lemma {:induction false} RunKeepsForest(org: Org, events: seq<Event>)
    requires Forest(org.rows)
    ensures Forest(After(org, events).rows)
    decreases |events|
  {
    if events != [] {
      match events[0] {
        case Create(id, name, parent) =>
          if id !in org.rows && (parent.Some? ==> Active(org.rows, parent.value)) {
            NewIsAccepted(org.rows, id, parent);
            MoveKeepsForest(org.rows, id, Department(name, parent, false));
          }
        case Update(id, name, parent) =>
          if UpdateStatus(org.rows, id, parent).Done? { UpdateKeepsForest(org.rows, id, name, parent); }
        case DeleteOne(id) =>
          if Deletable(org.rows, org.occupied, id) { DeleteKeepsForest(org.rows, id); }
        case DeleteMany(ids) => BatchKeepsForest(org.rows, org.occupied, Distinct(ids));
        case Occupy(_) =>
      }
      RunKeepsForest(Act(org, events[0]), events[1..]);
    }
  }

  /**
   However departments are created, renamed, moved and deleted, one operation after the other: every
   active department has an active parent or none, and a chain of parents that ends.
   */
  lemma AlwaysAForest(events: seq<Event>)
    ensures Forest(After(Org(map[], {}), events).rows)
  {
    RunKeepsForest(Org(map[], {}), events);
  }

  /** A batch deletes exactly the ids it does not report as skipped, and touches no other row. */
  lemma {:induction false} BatchReportIsExact(rows: Rows, occupied: set<nat>, ids: seq<nat>, x: nat)
    requires forall i, j :: 0 <= i < j < |ids| ==> ids[i] != ids[j]
    ensures var after, skipped := DeleteEach(rows, occupied, ids), Skipped(rows, occupied, ids);
            && (x in after <==> x in rows)
            && (x in skipped ==> x in ids)
            && (x in ids && x !in skipped ==> x in rows && after[x] == rows[x].(deleted := true))
            && (x in rows && (x in skipped || x !in ids) ==> after[x] == rows[x])
    decreases |ids|
  {
    if ids != [] {
      BatchReportIsExact(Delete(rows, occupied, ids[0]), occupied, ids[1..], x);
      assert ids == [ids[0]] + ids[1..];
    }
  }

  /** No active department has `id` as its parent. */
  ghost predicate Childless(rows: Rows, id: nat) {
    forall child <- rows :: rows[child].parent == Some(id) ==> rows[child].deleted
  }

  /**
   A batch goes id by id: the next one is deleted exactly if by then it is active and has neither an active
   child nor a member, and is reported otherwise.
   */
  lemma {:induction false} BatchGoesOn(rows: Rows, occupied: set<nat>, ids: seq<nat>, x: nat)
    ensures var before := DeleteEach(rows, occupied, ids);
            var goes := x in before && !before[x].deleted && Childless(before, x) && x !in occupied;
            && DeleteEach(rows, occupied, ids + [x]) ==
               (if goes then before[x := Department(before[x].name, before[x].parent, true)] else before)
            && Skipped(rows, occupied, ids + [x]) == Skipped(rows, occupied, ids) + (if goes then [] else [x])
    decreases |ids|
  {
    if ids == [] {
      assert ids + [x] == [x] && [x][1..] == [];
      assert DeleteEach(Delete(rows, occupied, x), occupied, []) == Delete(rows, occupied, x);
    } else {
      assert (ids + [x])[1..] == ids[1..] + [x];
      BatchGoesOn(Delete(rows, occupied, ids[0]), occupied, ids[1..], x);
    }
  }

  /** The ids of a batch keep the order in which they first occur. */
  lemma DistinctGoesOn(ids: seq<nat>, x: nat)
    ensures Distinct(ids + [x]) == if x in ids then Distinct(ids) else Distinct(ids) + [x]
  {
    assert (ids + [x])[..|ids|] == ids;
  }

  /** What one event does, with the conditions spelled out; it does nothing if they do not hold. */
  lemma EventsTakeEffect(org: Org, id: nat, name: string, parent: Option<nat>, rename: Option<string>,
                         reparent: Option<Option<nat>>)
    ensures var rows := org.rows;
            && Act(org, Create(id, name, parent)) ==
               (if id !in rows && (parent.None? || (parent.value in rows && !rows[parent.value].deleted))
                then org.(rows := rows[id := Department(name, parent, false)]) else org)
            && Act(org, Update(id, rename, reparent)) ==
               (if id in rows && !rows[id].deleted && (reparent.Some? ==> Accepts(rows, id, reparent.value))
                then org.(rows := rows[id := Department(if rename.Some? then rename.value else rows[id].name,
                                                        if reparent.Some? then reparent.value else rows[id].parent,
                                                        false)])
                else org)
            && Act(org, DeleteOne(id)) ==
               (if id in rows && !rows[id].deleted && Childless(rows, id) && id !in org.occupied
                then org.(rows := rows[id := Department(rows[id].name, rows[id].parent, true)]) else org)
            && (forall ids :: Act(org, DeleteMany(ids)) == org.(rows := DeleteEach(rows, org.occupied, Distinct(ids))))
            && (forall members :: Act(org, Occupy(members)) == org.(occupied := members))
  {
  }

  // ---------------------------------------------------------------------------------------------
  // Two moves at once
  // ---------------------------------------------------------------------------------------------

  function Moved(rows: Rows, id: nat, parent: Option<nat>): Rows
    requires id in rows
  {
    rows[id := rows[id].(parent := parent)]
  }

  /** A chain that avoids `a` and reaches `b` still does so after both have moved. */
  lemma {:induction false} StillReaches(rows: Rows, moved: Rows, a: nat, b: nat, at: Option<nat>, k: nat)
    requires forall y :: y != Some(a) && y != Some(b) ==> Up(moved, y) == Up(rows, y)
    requires forall j: nat :: Climb(rows, at, j) != Some(a)
    requires Climb(rows, at, k) == Some(b)
    ensures at.Some? && InSubtree(moved, b, at.value)
    decreases k
  {
    assert Climb(rows, at, 0) != Some(a);
    if at == Some(b) {
      assert Climb(moved, at, 0) == Some(b);
    } else if k > 0 {
      if at.None? { NothingAbove(rows, k); }
      forall j: nat ensures Climb(rows, Up(rows, at), j) != Some(a) {
        assert Climb(rows, at, j + 1) != Some(a);
      }
      StillReaches(rows, moved, a, b, Up(rows, at), k - 1);
      var m: nat :| Climb(moved, Up(moved, at), m) == Some(b);
      assert Climb(moved, at, m + 1) == Some(b);
    }
  }

  /** A new parent that is not below the other department that moved is as good afterwards. */
  lemma SecondMoveIsAccepted(rows: Rows, a: nat, p: Option<nat>, b: nat, q: Option<nat>)
    requires Active(rows, a) && Active(rows, b) && Accepts(rows, b, q)
    requires q.Some? ==> !InSubtree(rows, a, q.value)
    ensures Accepts(Moved(rows, a, p), b, q)
  {
    if q.Some? {
      forall k: nat ensures Climb(Moved(rows, a, p), q, k) != Some(b) {
        ChainElsewhere(rows, Moved(rows, a, p), a, q, k);
      }
    }
  }

  lemma BothMovesMakeACycle(rows: Rows, a: nat, p: nat, b: nat, q: nat)
    requires a != b && Active(rows, a) && Active(rows, b)
    requires Accepts(rows, a, Some(p)) && Accepts(rows, b, Some(q))
    requires InSubtree(rows, b, p) && InSubtree(rows, a, q)
    ensures !Forest(Moved(Moved(rows, a, Some(p)), b, Some(q)))
  {
    var both := Moved(Moved(rows, a, Some(p)), b, Some(q));
    var j: nat :| Climb(rows, Some(p), j) == Some(b);
    StillReaches(rows, both, a, b, Some(p), j);
    var k: nat :| Climb(rows, Some(q), k) == Some(a);
    StillReaches(rows, both, b, a, Some(q), k);
    var m: nat :| Climb(both, Some(p), m) == Some(b);
    var n: nat :| Climb(both, Some(q), n) == Some(a);
    ClimbAdds(both, Some(a), m + 1, n + 1);
    assert Climb(both, Some(a), m + 1 + (n + 1)) == Some(a);
    if Forest(both) {
      assert Rooted(both, a);
      var e: nat :| Climb(both, Some(a), e) == None;
      NeverEnds(both, a, m + 1 + (n + 1), e);
    }
  }

  /**
   The walk takes no lock on the departments it passes. Two moves that are both validated before
   either is written leave a forest exactly when the new parents are not below each other's department.
   */
  lemma ConcurrentMovesIff(rows: Rows, a: nat, p: Option<nat>, b: nat, q: Option<nat>)
    requires Forest(rows) && a != b && Active(rows, a) && Active(rows, b)
    requires Accepts(rows, a, p) && Accepts(rows, b, q)
    ensures Forest(Moved(Moved(rows, a, p), b, q))
            <==> !(p.Some? && q.Some? && InSubtree(rows, b, p.value) && InSubtree(rows, a, q.value))
  {
    var both := Moved(Moved(rows, a, p), b, q);
    if q.Some? ==> !InSubtree(rows, a, q.value) {
      MoveKeepsForest(rows, a, rows[a].(parent := p));
      SecondMoveIsAccepted(rows, a, p, b, q);
      MoveKeepsForest(Moved(rows, a, p), b, rows[b].(parent := q));
    } else if p.Some? ==> !InSubtree(rows, b, p.value) {
      MoveKeepsForest(rows, b, rows[b].(parent := q));
      SecondMoveIsAccepted(rows, b, q, a, p);
      MoveKeepsForest(Moved(rows, b, q), a, rows[a].(parent := p));
      assert both == Moved(Moved(rows, b, q), a, p);
    } else {
      BothMovesMakeACycle(rows, a, p.value, b, q.value);
    }
  }

  /** The write of a deletion, whatever it was validated against. */
  function Erased(rows: Rows, id: nat): Rows
    requires id in rows
  {
    rows[id := rows[id].(deleted := true)]
  }

  /**
   A move locks no row of its new ancestors either. A move and a deletion that are both validated
   before either is written leave a forest exactly if the department does not move under the deleted one.
   */
  lemma MoveAndDeleteIff(rows: Rows, occupied: set<nat>, id: nat, parent: Option<nat>, gone: nat)
    requires Forest(rows) && Active(rows, id) && Accepts(rows, id, parent) && Deletable(rows, occupied, gone)
    ensures Forest(Erased(Moved(rows, id, parent), gone)) <==> parent != Some(gone)
  {
    var moved := Moved(rows, id, parent);
    MoveKeepsForest(rows, id, rows[id].(parent := parent));
    if parent != Some(gone) {
      assert !HasActiveChild(moved, gone);
      DeleteKeepsForest(moved, gone);
    } else {
      assert Climb(rows, Some(id), 0) == Some(id);
      assert !Rooted(Erased(moved, gone), id);
    }
  }

  /** The shortest such case: two departments that are moved under each other. */
  lemma ConcurrentMovesMakeACycle()
    ensures var rows := map[1 := Department("a", None, false), 2 := Department("b", None, false)];
            && Forest(rows) && Accepts(rows, 1, Some(2)) && Accepts(rows, 2, Some(1))
            && !Forest(Moved(Moved(rows, 1, Some(2)), 2, Some(1)))
  {
    var rows := map[1 := Department("a", None, false), 2 := Department("b", None, false)];
    forall id ensures Rooted(rows, id) {
      assert Climb(rows, Some(id), 1) == Climb(rows, Up(rows, Some(id)), 0);
    }
    forall k: nat, id | id in {1, 2}
      ensures Climb(rows, Some(id), k) == if k == 0 then Some(id) else None
    {
      if k > 0 { NothingAbove(rows, k - 1); }
    }
    var cyclic := Moved(Moved(rows, 1, Some(2)), 2, Some(1));
    if Rooted(cyclic, 1) {
      assert Climb(cyclic, Some(1), 2) == Climb(cyclic, Some(2), 1) == Climb(cyclic, Some(1), 0);
      var k: nat :| Climb(cyclic, Some(1), k) == None;
      NeverEnds(cyclic, 1, 2, k);
    }
  }
}
