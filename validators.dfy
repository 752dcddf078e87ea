/** The validating descriptors of task_1/parser.py: `JSONInputFilePath` for the two input
    paths and `RoomStudentOutputFormat` for the output format. A descriptor's `__set__`
    either stores the value in the owner's attribute dictionary or raises. */
module Validators {
  import opened Wrappers

  /** The exceptions the descriptors raise, with their messages. */
  datatype Error =
    | FileNotFoundError(message: string)
    | ValueError(message: string)

  /** The owner's `__dict__`, restricted to the string attributes the descriptors store. */
  type Attributes = map<string, string>

  /** `RoomStudentOutputFormat.__supported_output_formats` */
  const SupportedOutputFormats: seq<string> := ["json", "xml"]

  /** `sep.join(items)` */
  function Join(sep: string, items: seq<string>): (s: string)
    ensures items != [] ==> |items[0]| <= |s| && s[..|items[0]|] == items[0]
    ensures items != [] ==> |items[|items| - 1]| <= |s| && s[|s| - |items[|items| - 1]|..] == items[|items| - 1]
    decreases |items|
  {
    if items == [] then ""
    else if |items| == 1 then items[0]
    else items[0] + sep + Join(sep, items[1..])
  }

  /** Python's `s.endswith(suffix)`. */
  predicate EndsWith(s: string, suffix: string)
    ensures EndsWith(s, suffix) ==> |suffix| <= |s| && s == s[..|s| - |suffix|] + suffix
  {
    |suffix| <= |s| && s[|s| - |suffix|..] == suffix
  }

  /** A string ends with a suffix exactly when it is some string followed by that suffix. */
  lemma EndsWithIff(s: string, suffix: string)
    ensures EndsWith(s, suffix) <==> exists stem :: s == stem + suffix
  {
    if EndsWith(s, suffix) {
      assert s == s[..|s| - |suffix|] + suffix;
    }
    if exists stem :: s == stem + suffix {
      var stem :| s == stem + suffix;
      assert s[|s| - |suffix|..] == suffix;
    }
  }

  function UnknownFormatMessage(value: string): string
  {
    "Unknown output format '" + value + "'. Use " + Join(" or ", SupportedOutputFormats) + "."
  }

  /** The message lists the supported formats as "json or xml". */
  lemma UnknownFormatMessageText(value: string)
    ensures UnknownFormatMessage(value) == "Unknown output format '" + value + "'. Use json or xml."
  {
    assert Join(" or ", SupportedOutputFormats) == "json" + " or " + Join(" or ", ["xml"]);
  }

  /** `RoomStudentOutputFormat.__set__`: accept exactly "json" and "xml", storing the
      value unchanged under the attribute's name; anything else raises `ValueError` and
      stores nothing. */
  function SetOutputFormat(attrs: Attributes, name: string, value: string): (r: Result<Attributes, Error>)
    ensures r.Success? <==> value == "json" || value == "xml"
    ensures r.Success? ==> r.value.Keys == attrs.Keys + {name} && r.value[name] == value
    ensures r.Success? ==> forall k :: k in attrs && k != name ==> r.value[k] == attrs[k]
    ensures r.Failure? ==> r.error == ValueError(UnknownFormatMessage(value))
  {
    if value in SupportedOutputFormats then Success(attrs[name := value])
    else Failure(ValueError(UnknownFormatMessage(value)))
  }

  function NotAFileMessage(value: string): string
  {
    "'" + value + "' is not a file or does not exist."
  }

  const JsonExtensionMessage := "The file must have a '.json' extension"

  /** `JSONInputFilePath.__set__`, with `os.path.isfile` passed in as `isFile`: a path
      that is not a file raises `FileNotFoundError` whatever its extension; a file
      without the ".json" suffix raises `ValueError`; otherwise the path is stored
      unchanged. */
  function SetInputFilePath(attrs: Attributes, name: string, value: string, isFile: string -> bool): (r: Result<Attributes, Error>)
    ensures !isFile(value) ==> r == Failure(FileNotFoundError(NotAFileMessage(value)))
    ensures isFile(value) && !EndsWith(value, ".json") ==> r == Failure(ValueError(JsonExtensionMessage))
    ensures r.Success? <==> isFile(value) && EndsWith(value, ".json")
    ensures r.Success? ==> r.value.Keys == attrs.Keys + {name} && r.value[name] == value
    ensures r.Success? ==> forall k :: k in attrs && k != name ==> r.value[k] == attrs[k]
  {
    if isFile(value) then
      if EndsWith(value, ".json") then Success(attrs[name := value])
      else Failure(ValueError(JsonExtensionMessage))
    else Failure(FileNotFoundError(NotAFileMessage(value)))
  }

  /** An accepted input path is an existing file named `<stem>.json`. */
  lemma AcceptedPathIsJsonFile(attrs: Attributes, name: string, value: string, isFile: string -> bool)
    requires SetInputFilePath(attrs, name, value, isFile).Success?
    ensures isFile(value) && exists stem :: value == stem + ".json"
  {
    EndsWithIff(value, ".json");
  }

  /** Every existing file named `<stem>.json` is accepted. */
  lemma JsonFileIsAccepted(attrs: Attributes, name: string, stem: string, isFile: string -> bool)
    requires isFile(stem + ".json")
    ensures SetInputFilePath(attrs, name, stem + ".json", isFile) == Success(attrs[name := stem + ".json"])
  {
    EndsWithIff(stem + ".json", ".json");
  }
}
