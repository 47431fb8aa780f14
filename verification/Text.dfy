/** The few string operations the models share. */
module Text {

  /** Index of the last `c`, or -1. */
  function LastIndex(s: string, c: char): (i: int)
    ensures -1 <= i < |s|
    ensures i >= 0 ==> s[i] == c
    ensures forall j :: i < j < |s| ==> s[j] != c
  {
    if s == "" then -1 else if s[|s| - 1] == c then |s| - 1 else LastIndex(s[..|s| - 1], c)
  }

  /** Splitting at every slash. */
  function Parts(s: string): (parts: seq<string>)
    ensures |parts| > 0
    decreases |s|
  {
    var i := LastIndex(s, '/');
    if i < 0 then [s] else Parts(s[..i]) + [s[i + 1..]]
  }

  /** Splitting at every space. */
  function Words(s: string): (words: seq<string>)
    ensures |words| > 0
    decreases |s|
  {
    var i := LastIndex(s, ' ');
    if i < 0 then [s] else Words(s[..i]) + [s[i + 1..]]
  }

  lemma LastSlash(s: string, i: int)
    requires -1 <= i < |s| && (i >= 0 ==> s[i] == '/') && forall j :: i < j < |s| ==> s[j] != '/'
    ensures LastIndex(s, '/') == i
  {}
}
