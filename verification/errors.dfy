/** The forecast core's error taxonomy: a code and a human-readable description. */
module Errors {

  datatype ErrorCode =
    | Internal         // the request could not be made, or the reply could not be used
    | InvalidArgument  // the caller's input cannot be satisfied

  datatype Error = Error(code: ErrorCode, description: string)

  const DisplayPrefix: string := "An error occured when performing forecast request: "

  const InvalidDateDescription: string :=
    "Can't find forecast for specified data.Make sure that you use the format mm.dd.yyyy and do not specify a past date."

  /** The `Display` text of an error; the description sits between a fixed prefix and a final dot. */
  function Display(e: Error): (text: string)
    ensures |text| == |DisplayPrefix| + |e.description| + 1
    ensures text[..|DisplayPrefix|] == DisplayPrefix
    ensures text[|DisplayPrefix|..|text| - 1] == e.description
    ensures text[|text| - 1] == '.'
  {
    DisplayPrefix + e.description + "."
  }

  /** Two errors display alike only when their descriptions agree. */
  lemma DisplayKeepsDescription(a: Error, b: Error)
    requires Display(a) == Display(b)
    ensures a.description == b.description
  {
    var t := Display(a);
    assert t[|DisplayPrefix|..|t| - 1] == a.description;
  }

  /** The error for a date that does not parse or that the reply does not cover. */
  function InvalidDateError(): (e: Error)
    ensures e.code == InvalidArgument
    ensures e.description == InvalidDateDescription
  {
    Error(InvalidArgument, InvalidDateDescription)
  }
}
