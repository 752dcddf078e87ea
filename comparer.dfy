/** The comparers of task_1/parser.py: `RoomStudentComparerData` with the `compare` of its
    JSON subclass (flat shape) and of its XML subclass (wrapped shape). Both update a deep
    copy of the caller's rooms list in place, room by room. */
module Comparer {
  import opened Values
  import opened Association

  /** The list comprehension both `compare` methods evaluate for one room: walk the
      students in order and keep the projection of each one whose `room` is `roomId`. */
  method CollectStudents(students: array<Record>, roomId: Value) returns (list: seq<Value>)
    ensures list == StudentsOf(students[..], roomId)
  {
    list := [];
    var j := 0;
    while j < students.Length
      invariant 0 <= j <= students.Length
      invariant list == StudentsOf(students[..j], roomId)
    {
      var student := students[j];
      if Matches(student, roomId) {
        list := list + [Object(Project(student))];
      }
      assert students[..j + 1][..j] == students[..j];
      j := j + 1;
    }
    assert students[..j] == students[..];
  }

  class RoomStudentComparerData {
    /** The caller's rooms list, kept by reference. */
    const roomsData: array<Record>
    /** The caller's students list, kept by reference and only read. */
    const studentsData: array<Record>
    /** `copy.deepcopy(rooms_data)`: the list that `compare` updates and returns. */
    const presetComparedData: array<Record>

    /** The working copy shares no storage with the caller's lists. */
    ghost predicate Valid()
      reads this
    {
      presetComparedData != roomsData && presetComparedData != studentsData
    }

    constructor (rooms: array<Record>, students: array<Record>)
      ensures Valid()
      ensures roomsData == rooms && studentsData == students
      ensures fresh(presetComparedData) && presetComparedData[..] == rooms[..]
    {
      roomsData := rooms;
      studentsData := students;
      presetComparedData := new Record[rooms.Length](i reads rooms requires 0 <= i < rooms.Length => rooms[i]);
    }

    /** `JSONRoomStudentComparerData.compare`: for every room of the copy, set
        `"students"` to the list of its students' `{"id", "name"}` projections. */
    method CompareFlat() returns (result: array<Record>)
      requires Valid()
      modifies presetComparedData
      ensures result == presetComparedData
      ensures result[..] == FlatCompare(old(presetComparedData[..]), studentsData[..])
      ensures roomsData[..] == old(roomsData[..]) && studentsData[..] == old(studentsData[..])
    {
      var n := presetComparedData.Length;
      ghost var rooms := presetComparedData[..];
      var i := 0;
      while i < n
        invariant 0 <= i <= n
        invariant forall k :: 0 <= k < i ==> presetComparedData[k] == FlatRoom(rooms[k], studentsData[..])
        invariant forall k :: i <= k < n ==> presetComparedData[k] == rooms[k]
      {
        var room := presetComparedData[i];
        var listed := CollectStudents(studentsData, Get(room, "id"));
        presetComparedData[i] := room[StudentsKey := List(listed)];
        i := i + 1;
      }
      FlatCompareAt(rooms, studentsData[..]);
      result := presetComparedData;
    }

    /** `XMLRoomStudentComparerData.compare`: a first pass sets every room's `"students"`
        to an empty dictionary; a second pass stores the room's projected list in that
        dictionary under `"student"`. */
    method CompareWrapped() returns (result: array<Record>)
      requires Valid()
      modifies presetComparedData
      ensures result == presetComparedData
      ensures result[..] == WrappedCompare(old(presetComparedData[..]), studentsData[..])
      ensures roomsData[..] == old(roomsData[..]) && studentsData[..] == old(studentsData[..])
    {
      var n := presetComparedData.Length;
      ghost var rooms := presetComparedData[..];
      var i := 0;
      while i < n
        invariant 0 <= i <= n
        invariant forall k :: 0 <= k < i ==> presetComparedData[k] == rooms[k][StudentsKey := Object(map[])]
        invariant forall k :: i <= k < n ==> presetComparedData[k] == rooms[k]
      {
        presetComparedData[i] := presetComparedData[i][StudentsKey := Object(map[])];
        i := i + 1;
      }
      i := 0;
      while i < n
        invariant 0 <= i <= n
        invariant forall k :: 0 <= k < i ==> presetComparedData[k] == WrappedRoom(rooms[k], studentsData[..])
        invariant forall k :: i <= k < n ==> presetComparedData[k] == rooms[k][StudentsKey := Object(map[])]
      {
        var room := presetComparedData[i];
        assert Get(room, "id") == Get(rooms[i], "id");
        match Get(room, StudentsKey) {
          case Object(nested) =>
            var listed := CollectStudents(studentsData, Get(room, "id"));
            presetComparedData[i] := room[StudentsKey := Object(nested[StudentKey := List(listed)])];
            assert nested == map[];
          case _ =>
            assert false;
        }
        i := i + 1;
      }
      WrappedCompareAt(rooms, studentsData[..]);
      result := presetComparedData;
    }
  }
}
