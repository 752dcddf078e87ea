# Room/student association, modelled in Dafny

This project models the core of `task_1/parser.py`. That file reads a list of rooms and a
list of students, attaches to each room the students whose `room` field equals the room's
`id`, and produces the result in one of two shapes:

- flat, for JSON output: `room["students"] = [{"id", "name"}, ...]`;
- wrapped, for XML output: `room["students"] = {"student": [{"id", "name"}, ...]}`.

It also models the two validating descriptors (input path and output format) and the
`<rooms>` root that the XML serializer puts around its body.

Modules:

- `Values` (values.dfy): decoded JSON values (`Null`, `Int`, `Str`, `List`, `Object`).
  A record is a `map<string, Value>`. `Get` is `dict.get`, which gives `Null` for a missing
  key.
- `Association` (association.dfy): the pure meaning of both `compare` methods.
  `StudentsOf` is the list comprehension. `FlatCompare` and `WrappedCompare` are the two
  shapes. The lemmas state the ordered-filter, shape and multiplicity properties.
- `Comparer` (comparer.dfy): the imperative code. Class `RoomStudentComparerData` holds
  the caller's two lists and a fresh copy of the rooms, standing for `copy.deepcopy`.
  Its methods `CompareFlat` and `CompareWrapped` update that copy in place, one room at a
  time: the wrapped one in the source's two passes. Each is proved equal to its function
  in `Association`. `CollectStudents` is the comprehension as a loop.
- `Validators` (validators.dfy): `JSONInputFilePath.__set__` and
  `RoomStudentOutputFormat.__set__`. Each returns the owner's updated attribute map, or
  the exception it raises. `os.path.isfile` is a parameter `isFile`.
- `XmlSerializer` (serializer.dfy): the `<rooms>` root wrapper, with its inverse.
- `Wrappers` (wrappers.dfy): `Option` and `Result`.

What the code does, as the model states it:

- The code builds no index. Each room filters the whole student list (a nested loop), so
  `StudentsOf` is a per-room filter.
- A student is listed once for every room whose `id` equals its `room`. If two rooms share
  an `id`, the student appears twice. `EachStudentOncePerMatchingRoom` states this
  multiplicity. `DistinctIdsAtMostOneRoom` gives "at most once" when room ids are
  distinct.
- Because `dict.get` returns `None` for a missing key, a student without `room` is listed
  under a room without `id` (`MissingKeysMatch`).

## Model

| member | source | states |
|---|---|---|
| Values.Get | task_1/parser.py:117-119 | `dict.get`: the stored value when the key is present, `None` (`Null`) when it is absent. |
| Association.Project | task_1/parser.py:117 | The projection has exactly the keys `id` and `name`, holding the student's `get("id")` and `get("name")`. |
| Association.StudentsOf | task_1/parser.py:116-120 | The comprehension for one room: never longer than the student list. Its contents and order are stated by the filter lemmas below. |
| Association.FlatRoom | task_1/parser.py:114-122 | A room after `room.update({"students": [...]})`: its keys are the old keys plus `"students"`, and `"students"` holds a list. |
| Association.FlatCompare | task_1/parser.py:110-126 | The flat `compare` on values returns one room per input room. The per-room content is stated by `FlatCompareAt`. |
| Association.WrappedRoom | task_1/parser.py:131-145 | A room after both wrapped passes: its keys are the old keys plus `"students"`, and `"students"` holds a dictionary whose only key is `"student"`. |
| Association.WrappedCompare | task_1/parser.py:129-146 | The wrapped `compare` on values returns one room per input room. The per-room content is stated by `WrappedCompareAt`. |
| Comparer.CollectStudents | task_1/parser.py:116-120 | The loop over the students returns exactly the comprehension's list for the room id. |
| Comparer.RoomStudentComparerData.constructor | task_1/parser.py:99-103 | Keeps references to the caller's rooms and students. The working list is a fresh array with the same records as the rooms (the deep copy), so it shares nothing with the caller's lists. |
| Comparer.RoomStudentComparerData.CompareFlat | task_1/parser.py:110-126 | Updates the copy in place so that it equals `FlatCompare` of the old copy and the students. Returns the copy itself. The caller's rooms and students arrays are unchanged. |
| Comparer.RoomStudentComparerData.CompareWrapped | task_1/parser.py:129-146 | Pass 1 sets every `"students"` to `{}`. Pass 2 fills that dictionary under `"student"`. Afterwards the copy equals `WrappedCompare` of the old copy. The caller's arrays are unchanged. |
| Association.MatchIndicesSound | task_1/parser.py:118-119 | Every index the filter keeps is in range, and the student there satisfies `get("room") == room.get("id")`. |
| Association.MatchIndicesIncreasing | task_1/parser.py:118 | The kept indices strictly increase, so input order is kept and nothing is repeated. |
| Association.MatchIndicesComplete | task_1/parser.py:118-119 | Every student that satisfies the guard is kept. |
| Association.StudentsOfAtIndices | task_1/parser.py:116-120 | The room's list has one entry per kept index. The k-th entry is `{"id": get("id"), "name": get("name")}` of the k-th kept student. |
| Association.StudentsOfIsOrderedFilter | task_1/parser.py:116-120 | Combines the four lemmas above. A room's list is the students filtered by the guard, in input order, each projected to `id` and `name`. |
| Association.StudentsOfEmpty | task_1/parser.py:116-120 | A room's list is empty if and only if no student's `room` equals the room's `id`. |
| Association.StudentsOfSnoc | task_1/parser.py:118-119 | Proof helper. Appending a student adds its projection to the end of the list of each room it matches, and changes no other list. |
| Association.FlatCompareAt | task_1/parser.py:112-125 | The flat output has one room per input room, and room i is input room i after the flat update. |
| Association.WrappedCompareAt | task_1/parser.py:131-145 | The wrapped output has one room per input room, and room i is input room i after both wrapped passes. |
| Association.FlatCompareShape | task_1/parser.py:111-126 | There is one output room per input room, in order. The keys are the input keys plus `"students"`. Every other key keeps its value. `"students"` always holds the list, so an existing value is overwritten and an empty list is still present. |
| Association.WrappedIsFlatNested | task_1/parser.py:129-146 | Each wrapped room is the flat room with its list moved under the single key `"student"` of a dictionary. |
| Association.AllListedFlat | task_1/parser.py:112-124 | Concatenating the flat output's lists in room order gives the per-room filtered lists, concatenated. |
| Association.AllStudentsOfNone | task_1/parser.py:116-120 | Proof helper. With no students, every room's list is empty. |
| Association.RepeatRoomCountLast | task_1/parser.py:119 | Proof helper. One more room whose id matches adds exactly one more copy of the student, and any other room adds none. |
| Association.AllStudentsOfSnoc | task_1/parser.py:116-120 | Appending a student adds its projection once for each room whose id matches, in multiset terms. |
| Association.AllStudentsOfByStudent | task_1/parser.py:116-120 | Across all rooms, the room-by-room lists hold the same students, as a multiset, as the student-by-student enumeration. |
| Association.EachStudentOncePerMatchingRoom | task_1/parser.py:112-124 | Across all rooms, the output lists hold each student's projection once for each room whose `id` equals its `room`, and nothing else. This is a multiset equality with an enumeration by student. |
| Association.RoomWithIdExists | task_1/parser.py:119 | A positive count of rooms with a given id means some room has that id. |
| Association.DistinctIdsAtMostOneRoom | task_1/parser.py:119 | If room ids are pairwise distinct, every id value matches at most one room. |
| Association.MissingKeysMatch | task_1/parser.py:117-119 | For any student list, every student without `room` is listed under every room without `id`, because both `get` calls return `None`. |
| Association.ExampleMathStudents | task_1/parser.py:116-120 | In the worked example, room 1 gets Alice and then Carl. |
| Association.ExamplePhysicsStudents | task_1/parser.py:116-120 | In the worked example, room 2 gets Bob. |
| Association.ExampleTwoRooms | task_1/parser.py:110-126 | The whole flat output of the worked example: two rooms, three students, each student cut down to `id` and `name`. |
| Validators.Join | task_1/parser.py:39 | `' or '.join(items)`: for a non-empty list the result starts with the first item and ends with the last. |
| Validators.EndsWith | task_1/parser.py:18 | `str.endswith`: when it holds, the string is its leading part followed by the suffix. |
| Validators.EndsWithIff | task_1/parser.py:18 | `endswith(suffix)` holds if and only if the string is some stem followed by the suffix. |
| Validators.UnknownFormatMessageText | task_1/parser.py:27-39 | The error message names the supported formats as "json or xml". |
| Validators.SetOutputFormat | task_1/parser.py:35-39 | Succeeds if and only if the value is "json" or "xml". On success it stores the value unchanged under the attribute's name and leaves other attributes alone. Otherwise it raises `ValueError` with the message. |
| Validators.SetInputFilePath | task_1/parser.py:16-23 | A path that is not a file raises `FileNotFoundError`, whatever its extension. A file without the ".json" suffix raises `ValueError`. Otherwise the path is stored unchanged. |
| Validators.AcceptedPathIsJsonFile | task_1/parser.py:16-19 | An accepted path is an existing file named `<stem>.json`. |
| Validators.JsonFileIsAccepted | task_1/parser.py:16-19 | Every existing file named `<stem>.json` is accepted and stored. |
| XmlSerializer.Serialize | task_1/parser.py:157 | The output starts with `"<rooms>\n"`, ends with `"\n</rooms>"`, and holds the body unchanged between them. |
| XmlSerializer.UnwrapSerialize | task_1/parser.py:157 | Stripping the root from a serialized document gives back the body. |
| XmlSerializer.SerializeUnwrap | task_1/parser.py:157 | Every document that strips cleanly is the serialization of its body. |

## Left out

- File reading (`JSONInputDataConverter.get_data`, `open` and `json.load`) and file writing (`RoomStudentOutputFile.write_file`): these are I/O. Records arrive as already-decoded values.
- `json.dumps` (the JSON serializer) and `dict2xml(..., wrap="room")`: these are foreign encoders. `XmlSerializer.Serialize` takes the `dict2xml` body as an opaque string.
- `os.path.isfile`: a filesystem query. It is the `isFile` parameter of `Validators.SetInputFilePath`.
- `RoomStudentProcessFile`, `JSONProcessFile` and `XMLProcessFile`: these read files in their constructors and only chain the modelled pieces.
- `task_1/main.py` (command-line parsing and format dispatch) and `task_2/main.py` (a wrapper over `pkg_resources`): not part of this model.
- Abstract base classes and the descriptor plumbing (`__set_name__`, `__get__`): there is no behaviour to state. The JSON and XML comparer subclasses are one class with two `compare` methods, because they share the base constructor and differ only in `compare`.
- Values: the model has no Python booleans or floats, so Python's cross-type equality (`1 == 1.0 == True`) is not modelled. Equality of `Value` is structural.
- `Comparer.RoomStudentComparerData.constructor`: `copy.deepcopy` keeps aliasing inside the rooms list (the same dict listed twice stays one object). With value records this cannot be observed, and the result is the same either way, because both updates write the same value.
- Dictionary key order: a `map<string, Value>` has no insertion order. In Python, `"students"` is appended as the last key of a room, or keeps its place if the room already had it (task_1/parser.py:114,131). The projection puts `id` before `name` (117). `json.dumps` (151) writes keys in that order. The model states which keys are present and what they hold, but not their order.
- Non-dictionary elements: the types make every room and every student a dictionary. In Python a room or student that is not a `dict` (a number, a string, a list) raises `AttributeError` at `room.update`, `room.get` or `student.get` (task_1/parser.py:114,117,119). The model does not have that error path.
- The student records are arrays that the methods only read. The projected records in the output are values, so the model does not show that Python shares the `id` and `name` objects with the input.
