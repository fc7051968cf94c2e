/**
 `str.title()` on category text: the first cased letter of every word is
 upper-cased and every cased letter that follows a cased letter is
 lower-cased, so 'active' and 'ACTIVE' both become 'Active'.
 */
module Text {

  predicate IsUpper(c: char) {
    'A' <= c <= 'Z'
  }

  predicate IsLower(c: char) {
    'a' <= c <= 'z'
  }

  /** A letter that has an upper and a lower case form. */
  predicate IsCased(c: char) {
    IsUpper(c) || IsLower(c)
  }

  function ToUpper(c: char): (u: char)
    ensures IsCased(u) == IsCased(c)
    ensures IsCased(c) ==> IsUpper(u)
    ensures !IsLower(c) ==> u == c
    ensures ToLower(u) == ToLower(c)
  {
    if IsLower(c) then (c as int - 32) as char else c
  }

  function ToLower(c: char): (l: char)
    ensures IsCased(l) == IsCased(c)
    ensures IsCased(c) ==> IsLower(l)
    ensures !IsUpper(c) ==> l == c
  {
    if IsUpper(c) then (c as int + 32) as char else c
  }

  /** Both case conversions agree on whether two characters are the same letter. */
  lemma CaseFolding(a: char, b: char)
    requires ToLower(a) == ToLower(b)
    ensures ToUpper(a) == ToUpper(b)
  {
  }

  /** The character written at a position, given whether a cased letter precedes it. */
  function TitleChar(c: char, afterCased: bool): (t: char)
    ensures IsCased(t) == IsCased(c)
    ensures !IsCased(c) ==> t == c
  {
    if afterCased then ToLower(c) else ToUpper(c)
  }

  function TitleFrom(s: string, afterCased: bool): (r: string)
    ensures |r| == |s|
    ensures |s| > 0 ==> r[0] == TitleChar(s[0], afterCased)
    ensures forall i :: 0 < i < |s| ==> r[i] == TitleChar(s[i], IsCased(s[i - 1]))
  {
    if |s| == 0 then ""
    else
      var rest := TitleFrom(s[1..], IsCased(s[0]));
      assert forall i :: 0 <= i < |s[1..]| ==> s[1..][i] == s[i + 1];
      [TitleChar(s[0], afterCased)] + rest
  }

  /** `str.title()`, for text whose letters are ASCII. */
  function Title(s: string): (r: string)
    ensures |r| == |s|
    ensures forall i :: 0 <= i < |s| ==> IsCased(r[i]) == IsCased(s[i])
    ensures forall i :: 0 <= i < |s| && !IsCased(s[i]) ==> r[i] == s[i]
    ensures forall i :: 0 <= i < |s| && IsCased(s[i]) && (i == 0 || !IsCased(s[i - 1])) ==>
              IsUpper(r[i]) && ToLower(r[i]) == ToLower(s[i])
    ensures forall i :: 0 < i < |s| && IsCased(s[i]) && IsCased(s[i - 1]) ==> r[i] == ToLower(s[i])
  {
    var r := TitleFrom(s, false);
    forall i | 0 <= i < |s|
      ensures r[i] == TitleChar(s[i], i > 0 && IsCased(s[i - 1]))
      ensures IsCased(r[i]) == IsCased(s[i]) && (!IsCased(s[i]) ==> r[i] == s[i])
    {
    }
    r
  }

  /** Title-casing text that is already title-cased changes nothing. */
  lemma TitleIdempotent(s: string)
    ensures Title(Title(s)) == Title(s)
  {
    var t := Title(s);
    var tt := Title(t);
    forall i | 0 <= i < |s| ensures tt[i] == t[i] {
      if i > 0 && IsCased(s[i - 1]) {
        assert tt[i] == ToLower(t[i]);
      } else if IsCased(s[i]) {
        assert tt[i] == ToUpper(t[i]);
      }
    }
  }

  /** Texts that differ only in the case of their letters title-case to the same text. */
  lemma TitleIgnoresCase(a: string, b: string)
    requires |a| == |b|
    requires forall i :: 0 <= i < |a| ==> ToLower(a[i]) == ToLower(b[i])
    ensures Title(a) == Title(b)
  {
    var ta, tb := Title(a), Title(b);
    forall i | 0 <= i < |a| ensures ta[i] == tb[i] {
      CaseFolding(a[i], b[i]);
      if i > 0 {
        assert IsCased(a[i - 1]) == IsCased(b[i - 1]);
      }
    }
  }

  /** The status values of the cleaning script: 'active' and 'Active' both become 'Active'. */
  lemma TitleExamples()
    ensures Title("active") == "Active"
    ensures Title("Active") == "Active"
  {
    var lower, upper := "active", "Active";
    var t := Title(lower);
    assert IsCased(lower[0]) && t[0] == ToUpper('a') == 'A';
    forall i | 1 <= i < 6 ensures t[i] == upper[i] {
      assert IsCased(lower[i - 1]) && IsLower(lower[i]);
    }
    TitleIgnoresCase(lower, upper);
  }
}
