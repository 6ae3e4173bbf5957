/**
  The name checks of app/views/utils/utils.js. `checkFileName` reports whether
  a file name contains a character from its forbidden set (true means the name
  is rejected); `checkSpecial` accepts a note or notebook name when it has
  none of its own forbidden characters and is at most 100 UTF-16 code units
  long. The error toast `checkSpecial` can show is not part of this model.
 */
module Names {
  import opened Js

  /** The class `[，,“”‘’：/]` of `checkFileName`. */
  predicate IsFileNameMark(c: char) {
    c == '，' || c == ',' || c == '“' || c == '”' || c == '‘' || c == '’' || c == '：' || c == '/'
  }

  /** The class `[，：:/]` of `checkSpecial`. */
  predicate IsSpecialMark(c: char) {
    c == '，' || c == '：' || c == ':' || c == '/'
  }

  /** The longest name `checkSpecial` accepts, in UTF-16 code units. */
  const MaxNameLength := 100

  /** `checkFileName(name)`: true iff some character of the name is forbidden. */
  function CheckFileName(name: string): (r: bool)
    ensures r <==> exists i | 0 <= i < |name| :: IsFileNameMark(name[i])
  {
    |name| > 0 && (IsFileNameMark(name[0]) || CheckFileName(name[1..]))
  }

  /** `/[，：:/]/g.test(str)`. */
  function HasSpecialMark(s: string): (r: bool)
    ensures r <==> exists i | 0 <= i < |s| :: IsSpecialMark(s[i])
  {
    |s| > 0 && (IsSpecialMark(s[0]) || HasSpecialMark(s[1..]))
  }

  /** `checkSpecial(str, showMessage)`: the forbidden characters are checked
      first, then the length; the result does not depend on `showMessage`. */
  function CheckSpecial(str: string): (r: bool)
    ensures r <==> (forall i | 0 <= i < |str| :: !IsSpecialMark(str[i])) && Utf16Length(str) <= MaxNameLength
    ensures |str| > MaxNameLength ==> !r
  {
    if HasSpecialMark(str) then false
    else if Utf16Length(str) > MaxNameLength then false
    else true
  }

  /** Every character `checkSpecial` forbids except the ASCII colon is also
      forbidden by `checkFileName`, so a name that only fails `checkSpecial`
      on those characters is rejected by both. */
  lemma {:induction false} SpecialMarksAreFileNameMarks(s: string)
    requires forall i | 0 <= i < |s| :: s[i] != ':'
    requires HasSpecialMark(s)
    ensures CheckFileName(s)
  {
    var i :| 0 <= i < |s| && IsSpecialMark(s[i]);
    assert IsFileNameMark(s[i]);
  }
}
