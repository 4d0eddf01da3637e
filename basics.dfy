/** Small shared datatypes. */
module Basics {

  /** A value that may be absent: a Go nil pointer or nil error. */
  datatype Option<+T> = None | Some(value: T)

  /** The concatenation of a list of strings, in order. */
  function Concat(parts: seq<string>): string
  {
    if parts == [] then "" else parts[0] + Concat(parts[1..])
  }

  /** With no empty part, the concatenation is empty exactly when there are no parts. */
  lemma ConcatEmpty(parts: seq<string>)
    requires forall i :: 0 <= i < |parts| ==> parts[i] != ""
    ensures Concat(parts) == "" <==> parts == []
  {
  }

  /** Appending a part appends it to the concatenation. */
  lemma {:induction false} ConcatAppend(parts: seq<string>, last: string)
    ensures Concat(parts + [last]) == Concat(parts) + last
  {
    if parts == [] {
      assert parts + [last] == [last];
    } else {
      assert (parts + [last])[1..] == parts[1..] + [last];
      ConcatAppend(parts[1..], last);
    }
  }
}
