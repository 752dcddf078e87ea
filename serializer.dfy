/** `XMLRoomStudentSerializer.serialize` of task_1/parser.py: the literal `<rooms>` root
    around the body that `dict2xml(data, wrap="room")` produces. The body is taken as an
    opaque string. */
module XmlSerializer {
  import opened Wrappers

  const RootOpen := "<rooms>\n"
  const RootClose := "\n</rooms>"

  /** The serialized document: the root's opening line, the body, the root's closing line. */
  function Serialize(body: string): (xml: string)
    ensures |xml| == |RootOpen| + |body| + |RootClose|
    ensures xml[..|RootOpen|] == RootOpen
    ensures xml[|xml| - |RootClose|..] == RootClose
    ensures xml[|RootOpen|..|xml| - |RootClose|] == body
  {
    RootOpen + body + RootClose
  }

  /** The body of a document wrapped in the `<rooms>` root, if it is one. */
  function Unwrap(xml: string): Option<string>
  {
    if |RootOpen| + |RootClose| <= |xml|
       && xml[..|RootOpen|] == RootOpen
       && xml[|xml| - |RootClose|..] == RootClose
    then Some(xml[|RootOpen|..|xml| - |RootClose|])
    else None
  }

  /** Unwrapping recovers the body of every serialized document. */
  lemma UnwrapSerialize(body: string)
    ensures Unwrap(Serialize(body)) == Some(body)
  {
  }

  /** Every document that unwraps is the serialization of its body, so `Serialize` is a
      bijection between bodies and wrapped documents. */
  lemma SerializeUnwrap(xml: string)
    requires Unwrap(xml).Some?
    ensures Serialize(Unwrap(xml).value) == xml
  {
    var body := Unwrap(xml).value;
    assert xml == xml[..|RootOpen|] + body + xml[|xml| - |RootClose|..];
  }
}
