/** The assignment store: for each child, the list of lessons a parent has
    assigned, in the order they were assigned. Assigning is idempotent per
    (child, lesson) pair; unassigning drops a child's key once its list is
    empty. */
module AssignmentStore {
  import opened Types

  datatype AssignedTopic = AssignedTopic(
    childId: ChildId,
    lessonId: LessonId,
    assignedAt: Timestamp,
    assignedBy: string)

  type Assignments = map<ChildId, seq<AssignedTopic>>

  /** `assignments[childId] || []`. */
  function GetAssignments(a: Assignments, c: ChildId): (r: seq<AssignedTopic>)
    ensures c !in a ==> r == []
    ensures c in a ==> r == a[c]
  {
    if c in a then a[c] else []
  }

  /** `list.some(x => x.lessonId === lessonId)`. */
  predicate HasLesson(list: seq<AssignedTopic>, l: LessonId) {
    exists i :: 0 <= i < |list| && list[i].lessonId == l
  }

  /** `isAssigned`. */
  predicate IsAssigned(a: Assignments, c: ChildId, l: LessonId) {
    HasLesson(GetAssignments(a, c), l)
  }

  /** `list.filter(x => x.lessonId !== lessonId)`. */
  function Without(list: seq<AssignedTopic>, l: LessonId): (r: seq<AssignedTopic>)
    ensures |r| <= |list|
    ensures forall i :: 0 <= i < |r| ==> r[i].lessonId != l
    ensures forall x :: x in r <==> x in list && x.lessonId != l
  {
    if list == [] then []
    else if list[0].lessonId == l then Without(list[1..], l)
    else [list[0]] + Without(list[1..], l)
  }

  /** Filtering distributes over concatenation; with `WithoutOne` this
      says that the kept entries stay in their order. */
  lemma {:induction false} WithoutAppend(a: seq<AssignedTopic>, b: seq<AssignedTopic>, l: LessonId)
    ensures Without(a + b, l) == Without(a, l) + Without(b, l)
  {
    if a == [] {
      assert a + b == b;
    } else {
      var ab := a + b;
      assert ab[0] == a[0] && ab[1..] == a[1..] + b;
      WithoutAppend(a[1..], b, l);
      if a[0].lessonId == l {
        assert Without(ab, l) == Without(ab[1..], l);
      } else {
        assert Without(ab, l) == [a[0]] + Without(ab[1..], l);
      }
    }
  }

  /** A single entry is kept iff it is not the lesson's. */
  lemma WithoutOne(x: AssignedTopic, l: LessonId)
    ensures Without([x], l) == if x.lessonId == l then [] else [x]
  {
    assert [x][1..] == [];
  }

  /** `assignTopic`: an already assigned pair leaves the store unchanged;
      otherwise one new entry is appended to that child's list. */
  function AssignTopic(a: Assignments, c: ChildId, l: LessonId, parent: string, now: Timestamp): (r: Assignments)
    ensures IsAssigned(a, c, l) ==> r == a
    ensures !IsAssigned(a, c, l) ==>
              && r.Keys == a.Keys + {c}
              && r[c] == GetAssignments(a, c) + [AssignedTopic(c, l, now, parent)]
    ensures forall k :: k in a && k != c ==> k in r && r[k] == a[k]
  {
    var list := GetAssignments(a, c);
    if HasLesson(list, l) then a else a[c := list + [AssignedTopic(c, l, now, parent)]]
  }

  /** `unassignTopic`: drops every entry of the lesson from the child's
      list, and the child's key once nothing is left. */
  function UnassignTopic(a: Assignments, c: ChildId, l: LessonId): (r: Assignments)
    ensures Without(GetAssignments(a, c), l) == [] ==> c !in r && r.Keys == a.Keys - {c}
    ensures Without(GetAssignments(a, c), l) != [] ==>
              r.Keys == a.Keys && r[c] == Without(GetAssignments(a, c), l)
    ensures forall k :: k in a && k != c ==> k in r && r[k] == a[k]
  {
    var updated := Without(GetAssignments(a, c), l);
    if |updated| == 0 then a - {c} else a[c := updated]
  }

  /** The store invariant: no child's list names a lesson twice, no list is
      empty, and every entry sits under its own child's key. */
  ghost predicate Valid(a: Assignments) {
    forall c :: c in a ==>
      && a[c] != []
      && (forall i :: 0 <= i < |a[c]| ==> a[c][i].childId == c)
      && (forall i, j :: 0 <= i < j < |a[c]| ==> a[c][i].lessonId != a[c][j].lessonId)
  }

  lemma AssignPreservesValid(a: Assignments, c: ChildId, l: LessonId, parent: string, now: Timestamp)
    requires Valid(a)
    ensures Valid(AssignTopic(a, c, l, parent, now))
  {
    var r: Assignments := AssignTopic(a, c, l, parent, now);
    if !IsAssigned(a, c, l) {
      var list := GetAssignments(a, c);
      forall i, j | 0 <= i < j < |r[c]| ensures r[c][i].lessonId != r[c][j].lessonId {
        if j == |list| {
          assert r[c][i] == list[i];
        }
      }
    }
  }

  lemma {:induction false} WithoutKeepsDistinct(list: seq<AssignedTopic>, l: LessonId)
    requires forall i, j :: 0 <= i < j < |list| ==> list[i].lessonId != list[j].lessonId
    ensures forall i, j :: 0 <= i < j < |Without(list, l)| ==>
              Without(list, l)[i].lessonId != Without(list, l)[j].lessonId
  {
    if list != [] {
      WithoutKeepsDistinct(list[1..], l);
      var rest := Without(list[1..], l);
      if list[0].lessonId != l {
        forall x | x in rest ensures x.lessonId != list[0].lessonId {
          var k :| 0 <= k < |list[1..]| && list[1..][k] == x;
          assert list[k + 1] == x;
        }
      }
    }
  }

  lemma UnassignPreservesValid(a: Assignments, c: ChildId, l: LessonId)
    requires Valid(a)
    ensures Valid(UnassignTopic(a, c, l))
  {
    var list := GetAssignments(a, c);
    WithoutKeepsDistinct(list, l);
    var r: Assignments := UnassignTopic(a, c, l);
    if c in r {
      forall i | 0 <= i < |r[c]| ensures r[c][i].childId == c {
        assert r[c][i] in list;
      }
    }
  }

  /** `isAssigned` holds right after `assignTopic` of the same pair, and
      fails right after `unassignTopic` of it. */
  lemma AssignThenIsAssigned(a: Assignments, c: ChildId, l: LessonId, parent: string, now: Timestamp)
    ensures IsAssigned(AssignTopic(a, c, l, parent, now), c, l)
    ensures !IsAssigned(UnassignTopic(AssignTopic(a, c, l, parent, now), c, l), c, l)
  {
    var r: Assignments := AssignTopic(a, c, l, parent, now);
    if !IsAssigned(a, c, l) {
      assert r[c][|r[c]| - 1].lessonId == l;
    }
  }

  /** Assigning the same pair twice is assigning it once: one entry, with
      the first call's time and parent. */
  lemma AssignIdempotent(a: Assignments, c: ChildId, l: LessonId, p1: string, t1: Timestamp, p2: string, t2: Timestamp)
    ensures AssignTopic(AssignTopic(a, c, l, p1, t1), c, l, p2, t2) == AssignTopic(a, c, l, p1, t1)
  {
    AssignThenIsAssigned(a, c, l, p1, t1);
  }

  /** Unassigning is idempotent as well. */
  lemma UnassignIdempotent(a: Assignments, c: ChildId, l: LessonId)
    ensures UnassignTopic(UnassignTopic(a, c, l), c, l) == UnassignTopic(a, c, l)
  {
    var list := Without(GetAssignments(a, c), l);
    if list != [] {
      WithoutFixed(list, l);
    }
  }

  lemma {:induction false} WithoutFixed(list: seq<AssignedTopic>, l: LessonId)
    requires forall i :: 0 <= i < |list| ==> list[i].lessonId != l
    ensures Without(list, l) == list
  {
    if list != [] {
      WithoutFixed(list[1..], l);
    }
  }
}
