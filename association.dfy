/** What the two `compare` methods of task_1/parser.py compute, as functions on values:
    the per-room filter over the students, the `{"id", "name"}` projection, and the flat
    and wrapped shapes of the augmented rooms. The imperative methods in module Comparer
    are proved against these functions. */
module Association {
  import opened Values

  const StudentsKey := "students"
  const StudentKey := "student"

  /** `{"id": student.get("id"), "name": student.get("name")}` */
  function Project(student: Record): (p: Record)
    ensures p.Keys == {"id", "name"}
    ensures p["id"] == Get(student, "id") && p["name"] == Get(student, "name")
  {
    map["id" := Get(student, "id"), "name" := Get(student, "name")]
  }

  /** The comprehension's guard `student.get("room") == room.get("id")`, with the room's
      `id` already looked up. */
  predicate Matches(student: Record, roomId: Value)
  {
    Get(student, "room") == roomId
  }

  /** The list comprehension of both `compare` methods: the projections of the students
      whose `room` equals `roomId`, in the order of `students`. */
  function StudentsOf(students: seq<Record>, roomId: Value): (listed: seq<Value>)
    ensures |listed| <= |students|
    decreases |students|
  {
    if students == [] then []
    else
      var last := students[|students| - 1];
      StudentsOf(students[..|students| - 1], roomId)
        + (if Matches(last, roomId) then [Object(Project(last))] else [])
  }

  /** A room after the flat update `room.update({"students": [...]})`. */
  function FlatRoom(room: Record, students: seq<Record>): (r: Record)
    ensures r.Keys == room.Keys + {StudentsKey} && r[StudentsKey].List?
  {
    room[StudentsKey := List(StudentsOf(students, Get(room, "id")))]
  }

  /** The rooms list after the flat `compare`: every room updated in turn. */
  function FlatCompare(rooms: seq<Record>, students: seq<Record>): (out: seq<Record>)
    ensures |out| == |rooms|
    decreases |rooms|
  {
    if rooms == [] then []
    else FlatCompare(rooms[..|rooms| - 1], students) + [FlatRoom(rooms[|rooms| - 1], students)]
  }

  /** A room after the wrapped update: first `"students"` is set to `{}`, then that
      dictionary is updated with `{"student": [...]}`. */
  function WrappedRoom(room: Record, students: seq<Record>): (r: Record)
    ensures r.Keys == room.Keys + {StudentsKey}
    ensures r[StudentsKey].Object? && r[StudentsKey].fields.Keys == {StudentKey}
  {
    room[StudentsKey := Object(map[][StudentKey := List(StudentsOf(students, Get(room, "id")))])]
  }

  /** The rooms list after the wrapped `compare`. */
  function WrappedCompare(rooms: seq<Record>, students: seq<Record>): (out: seq<Record>)
    ensures |out| == |rooms|
    decreases |rooms|
  {
    if rooms == [] then []
    else WrappedCompare(rooms[..|rooms| - 1], students) + [WrappedRoom(rooms[|rooms| - 1], students)]
  }

  // ---------------------------------------------------------------------------
  // The filter: which students a room receives, and in which order.

  /** The indices of the students whose `room` equals `roomId`. */
  function MatchIndices(students: seq<Record>, roomId: Value): seq<nat>
    decreases |students|
  {
    if students == [] then []
    else
      MatchIndices(students[..|students| - 1], roomId)
        + (if Matches(students[|students| - 1], roomId) then [|students| - 1] else [])
  }

  /** Every listed index is that of a student whose `room` equals `roomId`. */
  lemma {:induction false} MatchIndicesSound(students: seq<Record>, roomId: Value)
    ensures forall k :: 0 <= k < |MatchIndices(students, roomId)| ==>
      MatchIndices(students, roomId)[k] < |students| && Matches(students[MatchIndices(students, roomId)[k]], roomId)
    decreases |students|
  {
    if students != [] {
      var n := |students| - 1;
      var idx0 := MatchIndices(students[..n], roomId);
      MatchIndicesSound(students[..n], roomId);
      assert forall k :: 0 <= k < |idx0| ==> idx0[k] < n && students[..n][idx0[k]] == students[idx0[k]];
    }
  }

  /** The indices are listed in strictly increasing order. */
  lemma {:induction false} MatchIndicesIncreasing(students: seq<Record>, roomId: Value)
    ensures forall k, l :: 0 <= k < l < |MatchIndices(students, roomId)| ==>
      MatchIndices(students, roomId)[k] < MatchIndices(students, roomId)[l]
    decreases |students|
  {
    if students != [] {
      var n := |students| - 1;
      var idx0 := MatchIndices(students[..n], roomId);
      MatchIndicesSound(students[..n], roomId);
      MatchIndicesIncreasing(students[..n], roomId);
      assert forall k :: 0 <= k < |idx0| ==> idx0[k] < n;
    }
  }

  /** Every student whose `room` equals `roomId` is listed. */
  lemma {:induction false} MatchIndicesComplete(students: seq<Record>, roomId: Value)
    ensures forall j :: 0 <= j < |students| && Matches(students[j], roomId) ==> j in MatchIndices(students, roomId)
    decreases |students|
  {
    if students != [] {
      var n := |students| - 1;
      MatchIndicesComplete(students[..n], roomId);
      assert forall j :: 0 <= j < n ==> students[..n][j] == students[j];
    }
  }

  /** The k-th entry of a room's list is the projection of the k-th matching student. */
  lemma {:induction false} StudentsOfAtIndices(students: seq<Record>, roomId: Value)
    ensures |StudentsOf(students, roomId)| == |MatchIndices(students, roomId)|
    ensures forall k :: 0 <= k < |MatchIndices(students, roomId)| ==>
      MatchIndices(students, roomId)[k] < |students|
      && StudentsOf(students, roomId)[k] == Object(Project(students[MatchIndices(students, roomId)[k]]))
    decreases |students|
  {
    if students != [] {
      var n := |students| - 1;
      var idx0 := MatchIndices(students[..n], roomId);
      var list0 := StudentsOf(students[..n], roomId);
      StudentsOfAtIndices(students[..n], roomId);
      if Matches(students[n], roomId) {
        assert MatchIndices(students, roomId) == idx0 + [n];
        assert StudentsOf(students, roomId) == list0 + [Object(Project(students[n]))];
      } else {
        assert MatchIndices(students, roomId) == idx0;
        assert StudentsOf(students, roomId) == list0;
      }
      assert forall k :: 0 <= k < |idx0| ==> idx0[k] < n && students[..n][idx0[k]] == students[idx0[k]];
    }
  }

  /** A room's list is the input students filtered by the guard and projected, in input
      order: it follows, in strictly increasing order, exactly the indices of the matching
      students, and its k-th entry is the projection of the student at the k-th index. */
  lemma StudentsOfIsOrderedFilter(students: seq<Record>, roomId: Value)
    ensures var idx := MatchIndices(students, roomId);
      && (forall k :: 0 <= k < |idx| ==> idx[k] < |students| && Matches(students[idx[k]], roomId))
      && (forall k, l :: 0 <= k < l < |idx| ==> idx[k] < idx[l])
      && (forall j :: 0 <= j < |students| && Matches(students[j], roomId) ==> j in idx)
      && |StudentsOf(students, roomId)| == |idx|
      && (forall k :: 0 <= k < |idx| ==> StudentsOf(students, roomId)[k] == Object(Project(students[idx[k]])))
  {
    MatchIndicesSound(students, roomId);
    MatchIndicesIncreasing(students, roomId);
    MatchIndicesComplete(students, roomId);
    StudentsOfAtIndices(students, roomId);
  }

  /** A room receives the empty list exactly when no student's `room` equals its `id`. */
  lemma {:induction false} StudentsOfEmpty(students: seq<Record>, roomId: Value)
    ensures StudentsOf(students, roomId) == [] <==> forall j :: 0 <= j < |students| ==> !Matches(students[j], roomId)
  {
    StudentsOfIsOrderedFilter(students, roomId);
    var idx := MatchIndices(students, roomId);
    if StudentsOf(students, roomId) != [] {
      assert Matches(students[idx[0]], roomId);
    }
  }

  /** Adding one student at the end adds its projection to the rooms it matches. */
  lemma StudentsOfSnoc(students: seq<Record>, s: Record, roomId: Value)
    ensures StudentsOf(students + [s], roomId)
         == StudentsOf(students, roomId) + (if Matches(s, roomId) then [Object(Project(s))] else [])
  {
    assert (students + [s])[..|students|] == students;
  }

  // ---------------------------------------------------------------------------
  // The two shapes.

  /** The flat `compare` is a per-room map: one output room per input room, in order. */
  lemma {:induction false} FlatCompareAt(rooms: seq<Record>, students: seq<Record>)
    ensures |FlatCompare(rooms, students)| == |rooms|
    ensures forall i :: 0 <= i < |rooms| ==> FlatCompare(rooms, students)[i] == FlatRoom(rooms[i], students)
    decreases |rooms|
  {
    if rooms != [] {
      var n := |rooms| - 1;
      FlatCompareAt(rooms[..n], students);
      assert forall i :: 0 <= i < n ==> rooms[..n][i] == rooms[i];
    }
  }

  /** The wrapped `compare` is a per-room map too. */
  lemma {:induction false} WrappedCompareAt(rooms: seq<Record>, students: seq<Record>)
    ensures |WrappedCompare(rooms, students)| == |rooms|
    ensures forall i :: 0 <= i < |rooms| ==> WrappedCompare(rooms, students)[i] == WrappedRoom(rooms[i], students)
    decreases |rooms|
  {
    if rooms != [] {
      var n := |rooms| - 1;
      WrappedCompareAt(rooms[..n], students);
      assert forall i :: 0 <= i < n ==> rooms[..n][i] == rooms[i];
    }
  }

  /** The flat `compare` keeps one room per input room, in order; every field but
      `"students"` keeps its value; `"students"` is present (an existing one is
      overwritten) and holds the room's filtered list, empty when nothing matches. */
  lemma FlatCompareShape(rooms: seq<Record>, students: seq<Record>)
    ensures var out := FlatCompare(rooms, students);
      && |out| == |rooms|
      && (forall i :: 0 <= i < |rooms| ==> out[i].Keys == rooms[i].Keys + {StudentsKey})
      && (forall i, k :: 0 <= i < |rooms| && k in rooms[i] && k != StudentsKey ==> out[i][k] == rooms[i][k])
      && (forall i :: 0 <= i < |rooms| ==> out[i][StudentsKey] == List(StudentsOf(students, Get(rooms[i], "id"))))
  {
    FlatCompareAt(rooms, students);
  }

  /** The wrapped `compare` gives the same rooms as the flat one, except that the list
      under `"students"` sits one level deeper, as the only entry `"student"` of a
      dictionary. */
  lemma WrappedIsFlatNested(rooms: seq<Record>, students: seq<Record>)
    ensures var flat := FlatCompare(rooms, students);
            var wrapped := WrappedCompare(rooms, students);
      && |wrapped| == |flat| == |rooms|
      && (forall i :: 0 <= i < |rooms| ==>
            wrapped[i] == flat[i][StudentsKey := Object(map[StudentKey := Get(flat[i], StudentsKey)])])
  {
    FlatCompareAt(rooms, students);
    WrappedCompareAt(rooms, students);
  }

  // ---------------------------------------------------------------------------
  // Every student, across all rooms.

  /** The items of a list value; nothing for any other value. */
  function ListItems(v: Value): seq<Value>
  {
    if v.List? then v.items else []
  }

  /** All the students lists of a flat output, concatenated in room order. */
  function AllListed(out: seq<Record>): seq<Value>
    decreases |out|
  {
    if out == [] then []
    else AllListed(out[..|out| - 1]) + ListItems(Get(out[|out| - 1], StudentsKey))
  }

  /** The number of rooms whose `id` equals `roomId`. */
  function RoomCount(rooms: seq<Record>, roomId: Value): nat
    decreases |rooms|
  {
    if rooms == [] then 0
    else RoomCount(rooms[..|rooms| - 1], roomId) + (if Get(rooms[|rooms| - 1], "id") == roomId then 1 else 0)
  }

  function Repeat(v: Value, n: nat): seq<Value>
  {
    if n == 0 then [] else Repeat(v, n - 1) + [v]
  }

  /** The association enumerated student first: every student, in input order, once for
      each room whose `id` equals its `room`. */
  function ByStudent(rooms: seq<Record>, students: seq<Record>): seq<Value>
    decreases |students|
  {
    if students == [] then []
    else
      var last := students[|students| - 1];
      ByStudent(rooms, students[..|students| - 1]) + Repeat(Object(Project(last)), RoomCount(rooms, Get(last, "room")))
  }

  /** The concatenation of the rooms' filtered lists, computed room by room. */
  function AllStudentsOf(rooms: seq<Record>, students: seq<Record>): seq<Value>
    decreases |rooms|
  {
    if rooms == [] then []
    else AllStudentsOf(rooms[..|rooms| - 1], students) + StudentsOf(students, Get(rooms[|rooms| - 1], "id"))
  }

  lemma {:induction false} AllListedFlat(rooms: seq<Record>, students: seq<Record>)
    ensures AllListed(FlatCompare(rooms, students)) == AllStudentsOf(rooms, students)
    decreases |rooms|
  {
    if rooms != [] {
      var n := |rooms| - 1;
      var out := FlatCompare(rooms, students);
      AllListedFlat(rooms[..n], students);
      FlatCompareAt(rooms[..n], students);
      assert out[..n] == FlatCompare(rooms[..n], students);
    }
  }

  lemma {:induction false} AllStudentsOfNone(rooms: seq<Record>)
    ensures AllStudentsOf(rooms, []) == []
    decreases |rooms|
  {
    if rooms != [] {
      AllStudentsOfNone(rooms[..|rooms| - 1]);
    }
  }

  /** One more room whose `id` equals `roomId` adds one copy; any other room adds none. */
  lemma RepeatRoomCountLast(p: Value, rooms: seq<Record>, roomId: Value)
    requires rooms != []
    ensures var n := |rooms| - 1;
      multiset(Repeat(p, RoomCount(rooms, roomId)))
        == multiset(Repeat(p, RoomCount(rooms[..n], roomId))) + multiset(if Get(rooms[n], "id") == roomId then [p] else [])
  {
    var c := RoomCount(rooms[..|rooms| - 1], roomId);
    assert Repeat(p, c + 1) == Repeat(p, c) + [p];
  }

  lemma {:induction false} AllStudentsOfSnoc(rooms: seq<Record>, students: seq<Record>, s: Record)
    ensures multiset(AllStudentsOf(rooms, students + [s]))
         == multiset(AllStudentsOf(rooms, students)) + multiset(Repeat(Object(Project(s)), RoomCount(rooms, Get(s, "room"))))
    decreases |rooms|
  {
    if rooms != [] {
      var n := |rooms| - 1;
      var id := Get(rooms[n], "id");
      AllStudentsOfSnoc(rooms[..n], students, s);
      StudentsOfSnoc(students, s, id);
      RepeatRoomCountLast(Object(Project(s)), rooms, Get(s, "room"));
    }
  }

  /** The room-major and the student-major enumerations hold the same students. */
  lemma {:induction false} AllStudentsOfByStudent(rooms: seq<Record>, students: seq<Record>)
    ensures multiset(AllStudentsOf(rooms, students)) == multiset(ByStudent(rooms, students))
    decreases |students|
  {
    if students == [] {
      AllStudentsOfNone(rooms);
    } else {
      var n := |students| - 1;
      AllStudentsOfByStudent(rooms, students[..n]);
      assert students == students[..n] + [students[n]];
      AllStudentsOfSnoc(rooms, students[..n], students[n]);
    }
  }

  /** In the combined flat output a student appears once for every room whose `id`
      equals its `room`, and nowhere if no room matches; nothing else appears. */
  lemma EachStudentOncePerMatchingRoom(rooms: seq<Record>, students: seq<Record>)
    ensures multiset(AllListed(FlatCompare(rooms, students))) == multiset(ByStudent(rooms, students))
  {
    AllListedFlat(rooms, students);
    AllStudentsOfByStudent(rooms, students);
  }

  /** When room ids are pairwise distinct, a student belongs to at most one room. */
  lemma {:induction false} DistinctIdsAtMostOneRoom(rooms: seq<Record>, roomId: Value)
    requires forall i, j :: 0 <= i < j < |rooms| ==> Get(rooms[i], "id") != Get(rooms[j], "id")
    ensures RoomCount(rooms, roomId) <= 1
    decreases |rooms|
  {
    if rooms != [] {
      var n := |rooms| - 1;
      var init := rooms[..n];
      DistinctIdsAtMostOneRoom(init, roomId);
      if RoomCount(init, roomId) == 1 {
        RoomWithIdExists(init, roomId);
        var i :| 0 <= i < n && Get(init[i], "id") == roomId;
        assert init[i] == rooms[i];
      }
    }
  }

  /** The index of a room with the given `id`, when there is one. */
  lemma {:induction false} RoomWithIdExists(rooms: seq<Record>, roomId: Value)
    requires RoomCount(rooms, roomId) > 0
    ensures exists i :: 0 <= i < |rooms| && Get(rooms[i], "id") == roomId
    decreases |rooms|
  {
    var n := |rooms| - 1;
    if Get(rooms[n], "id") != roomId {
      RoomWithIdExists(rooms[..n], roomId);
      var i :| 0 <= i < n && Get(rooms[..n][i], "id") == roomId;
      assert rooms[..n][i] == rooms[i];
    }
  }

  // ---------------------------------------------------------------------------
  // Quirk of `dict.get`: absent keys compare equal.

  /** Among any students, one without a `room` key is listed under every room without an
      `id` key, since both lookups give `None`. */
  lemma MissingKeysMatch(room: Record, students: seq<Record>, j: nat)
    requires "id" !in room && j < |students| && "room" !in students[j]
    ensures Object(Project(students[j])) in FlatRoom(room, students)[StudentsKey].items
  {
    MatchIndicesComplete(students, Null);
    StudentsOfAtIndices(students, Null);
    var idx := MatchIndices(students, Null);
    var k :| 0 <= k < |idx| && idx[k] == j;
    assert StudentsOf(students, Null)[k] == Object(Project(students[j]));
  }

  // ---------------------------------------------------------------------------
  // A worked example: two rooms, three students.

  const Math: Record := map["id" := Int(1), "name" := Str("Math")]
  const Physics: Record := map["id" := Int(2), "name" := Str("Physics")]
  const Alice: Record := map["id" := Int(10), "name" := Str("Alice"), "room" := Int(1)]
  const Bob: Record := map["id" := Int(11), "name" := Str("Bob"), "room" := Int(2)]
  const Carl: Record := map["id" := Int(12), "name" := Str("Carl"), "room" := Int(1)]

  lemma ExampleRooms()
    ensures Get(Alice, "room") == Int(1) && Get(Bob, "room") == Int(2) && Get(Carl, "room") == Int(1)
    ensures [Alice, Bob, Carl][..2] == [Alice, Bob] && [Alice, Bob][..1] == [Alice] && [Alice][..0] == []
  {
  }

  lemma ExampleMathStudents()
    ensures StudentsOf([Alice, Bob, Carl], Int(1)) == [Object(Project(Alice)), Object(Project(Carl))]
  {
    ExampleRooms();
    assert StudentsOf([Alice], Int(1)) == [Object(Project(Alice))];
    assert StudentsOf([Alice, Bob], Int(1)) == [Object(Project(Alice))];
  }

  lemma ExamplePhysicsStudents()
    ensures StudentsOf([Alice, Bob, Carl], Int(2)) == [Object(Project(Bob))]
  {
    ExampleRooms();
    assert StudentsOf([Alice], Int(2)) == [];
    assert StudentsOf([Alice, Bob], Int(2)) == [Object(Project(Bob))];
  }

  /** Math (id 1) receives Alice and Carl in input order; Physics (id 2) receives Bob;
      each is cut down to its `id` and `name`. */
  lemma ExampleTwoRooms()
    ensures FlatCompare([Math, Physics], [Alice, Bob, Carl])
         == [ Math[StudentsKey := List([Object(map["id" := Int(10), "name" := Str("Alice")]),
                                        Object(map["id" := Int(12), "name" := Str("Carl")])])],
              Physics[StudentsKey := List([Object(map["id" := Int(11), "name" := Str("Bob")])])] ]
  {
    ExampleMathStudents();
    ExamplePhysicsStudents();
    assert Project(Alice) == map["id" := Int(10), "name" := Str("Alice")];
    assert Project(Bob) == map["id" := Int(11), "name" := Str("Bob")];
    assert Project(Carl) == map["id" := Int(12), "name" := Str("Carl")];
    assert Get(Math, "id") == Int(1) && Get(Physics, "id") == Int(2);
    assert [Math, Physics][..1] == [Math] && [Math][..0] == [];
    assert FlatCompare([Math], [Alice, Bob, Carl]) == [FlatRoom(Math, [Alice, Bob, Carl])];
    assert FlatCompare([Math, Physics], [Alice, Bob, Carl])
        == [FlatRoom(Math, [Alice, Bob, Carl]), FlatRoom(Physics, [Alice, Bob, Carl])];
  }
}
