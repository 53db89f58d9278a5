/** Null-tolerant comparisons and emptiness checks (UtilCompare). A Java reference that may be
    null is an `Option`; a `Collection` or array is an optional sequence. */
module UtilCompare {
  import opened Wrappers

  /** Characters Java's `String.trim()` strips: every code point up to and including the space. */
  predicate IsTrimmed(c: char) { c <= ' ' }

  predicate AllTrimmed(s: string) { forall i :: 0 <= i < |s| ==> IsTrimmed(s[i]) }

  function TrimStart(s: string): string
  {
    if |s| > 0 && IsTrimmed(s[0]) then TrimStart(s[1..]) else s
  }

  function TrimEnd(s: string): string
  {
    if |s| > 0 && IsTrimmed(s[|s| - 1]) then TrimEnd(s[..|s| - 1]) else s
  }

  /** Java's `String.trim()`. */
  function Trim(s: string): string
  {
    TrimEnd(TrimStart(s))
  }

  /** `isEmpty(String)`: null, or nothing left after trimming. */
  predicate IsEmpty(str: Option<string>)
  {
    str.None? || Trim(str.value) == ""
  }

  /** `isNotEmpty(String)`, written out as in the source; it is the exact negation of `IsEmpty`. */
  predicate IsNotEmpty(str: Option<string>)
    ensures IsNotEmpty(str) <==> !IsEmpty(str)
  {
    str.Some? && Trim(str.value) != ""
  }

  /** Trimming the front removes a blank prefix and stops at the first character it keeps. */
  lemma {:induction false} TrimStartShape(s: string)
    ensures |TrimStart(s)| <= |s| && TrimStart(s) == s[|s| - |TrimStart(s)|..]
    ensures AllTrimmed(s[..|s| - |TrimStart(s)|])
    ensures TrimStart(s) == [] || !IsTrimmed(TrimStart(s)[0])
    decreases |s|
  {
    if |s| > 0 && IsTrimmed(s[0]) {
      TrimStartShape(s[1..]);
      var t := TrimStart(s[1..]);
      assert s[..|s| - |t|] == [s[0]] + s[1..][..|s| - 1 - |t|];
    }
  }

  /** Trimming the end of a string whose first character is kept leaves something. */
  lemma {:induction false} TrimEndKeepsFirst(t: string)
    requires t != [] && !IsTrimmed(t[0])
    ensures TrimEnd(t) != []
    decreases |t|
  {
    if IsTrimmed(t[|t| - 1]) {
      TrimEndKeepsFirst(t[..|t| - 1]);
    }
  }

  lemma {:induction false} TrimEndOfBlank(t: string)
    requires AllTrimmed(t)
    ensures TrimEnd(t) == []
    decreases |t|
  {
    if |t| > 0 {
      TrimEndOfBlank(t[..|t| - 1]);
    }
  }

  /** A string trims to "" exactly when every character in it is one `trim()` strips. */
  lemma TrimEmptyIffBlank(s: string)
    ensures Trim(s) == "" <==> AllTrimmed(s)
  {
    TrimStartShape(s);
    if !AllTrimmed(s) {
      TrimEndKeepsFirst(TrimStart(s));
    }
  }

  /** `isEmpty(String)` holds exactly for null and for strings made only of characters up to ' '. */
  lemma IsEmptyIffBlank(str: Option<string>)
    ensures IsEmpty(str) <==> (str.None? || AllTrimmed(str.value))
  {
    if str.Some? {
      TrimEmptyIffBlank(str.value);
    }
  }

  /** `isEmpty(CharSequence)`: no trimming, only null or "". */
  predicate IsEmptyCharSequence(str: Option<string>)
  {
    str.None? || str.value == ""
  }

  /** The CharSequence check is stricter than the String check: " " is empty for one and not the other. */
  lemma CharSequenceEmptyIsStringEmpty(str: Option<string>)
    ensures IsEmptyCharSequence(str) ==> IsEmpty(str)
    ensures IsEmpty(Some(" ")) && !IsEmptyCharSequence(Some(" "))
  {
    TrimEmptyIffBlank(" ");
  }

  /** `isJsonStrNotEmpty`: not empty after trimming, and not the literal text "null". */
  predicate IsJsonStrNotEmpty(str: Option<string>)
    ensures IsJsonStrNotEmpty(str) <==> IsNotEmpty(str) && str != Some("null")
  {
    str.Some? && Trim(str.value) != "" && str.value != "null"
  }

  /** `isBigThan0(Integer)`. */
  predicate IsBigThan0(intVal: Option<int>)
  {
    intVal.Some? && intVal.value > 0
  }

  /** `isEmpty(Collection)`. */
  predicate IsEmptyCollection<T>(list: Option<seq<T>>)
  {
    list.None? || |list.value| == 0
  }

  /** `isNotEmpty(Collection)`, `isNotEmpty(int[])` and `isNotEmpty(Object[])`: the three share one shape. */
  predicate IsNotEmptyCollection<T>(list: Option<seq<T>>)
    ensures IsNotEmptyCollection(list) <==> !IsEmptyCollection(list)
  {
    list.Some? && |list.value| > 0
  }

  /** `isEqual(Object, Object)`: two nulls are equal, a null and a non-null are not, otherwise `equals`. */
  predicate IsEqual<T(==)>(o1: Option<T>, o2: Option<T>)
    ensures IsEqual(o1, o2) <==> o1 == o2
  {
    if o1.None? then o2.None?
    else if o2.None? then false
    else o1.value == o2.value
  }

  function ToUpperAscii(c: char): char
  {
    if 'a' <= c <= 'z' then (c as int - 32) as char else c
  }

  function ToLowerAscii(c: char): char
  {
    if 'A' <= c <= 'Z' then (c as int + 32) as char else c
  }

  /** Java's per-character test in `regionMatches(true, ...)`, with ASCII case mapping. */
  predicate CharEqualIgnoreCase(c1: char, c2: char)
  {
    c1 == c2 || ToUpperAscii(c1) == ToUpperAscii(c2) || ToLowerAscii(ToUpperAscii(c1)) == ToLowerAscii(ToUpperAscii(c2))
  }

  /** `String.equalsIgnoreCase` on non-null strings. */
  predicate EqualsIgnoreCase(s: string, t: string)
  {
    |s| == |t| && forall i :: 0 <= i < |s| ==> CharEqualIgnoreCase(s[i], t[i])
  }

  /** `isStringEqualIgnoreCase(String, String)`. */
  predicate IsStringEqualIgnoreCase(o1: Option<string>, o2: Option<string>)
    ensures o1.None? || o2.None? ==> (IsStringEqualIgnoreCase(o1, o2) <==> o1.None? && o2.None?)
  {
    if o1.None? then o2.None?
    else if o2.None? then false
    else EqualsIgnoreCase(o1.value, o2.value)
  }

  function LowerAscii(s: string): (t: string)
    ensures |t| == |s| && forall i :: 0 <= i < |s| ==> t[i] == ToLowerAscii(s[i])
  {
    if s == [] then [] else [ToLowerAscii(s[0])] + LowerAscii(s[1..])
  }

  /** Two characters match ignoring case exactly when their lower-case forms are equal. */
  lemma CharEqualIgnoreCaseIffLower(a: char, b: char)
    ensures CharEqualIgnoreCase(a, b) <==> ToLowerAscii(a) == ToLowerAscii(b)
  {
    if 'A' <= a <= 'Z' {
      assert ToLowerAscii(ToUpperAscii(a)) == ToLowerAscii(a);
    } else if 'a' <= a <= 'z' {
      assert ToLowerAscii(ToUpperAscii(a)) == a;
    }
  }

  /** Ignoring case means comparing the lower-cased strings. */
  lemma EqualsIgnoreCaseIffLowerEqual(s: string, t: string)
    ensures EqualsIgnoreCase(s, t) <==> LowerAscii(s) == LowerAscii(t)
  {
    if |s| == |t| {
      forall i | 0 <= i < |s| ensures CharEqualIgnoreCase(s[i], t[i]) <==> LowerAscii(s)[i] == LowerAscii(t)[i] {
        CharEqualIgnoreCaseIffLower(s[i], t[i]);
      }
      if EqualsIgnoreCase(s, t) {
        assert forall i :: 0 <= i < |s| ==> LowerAscii(s)[i] == LowerAscii(t)[i];
      }
    }
  }

  /** `isWordSeparator(char)`. */
  predicate IsWordSeparator(c: char)
    ensures !IsWordSeparator(c) <==> 'a' <= ToLowerAscii(c) <= 'z' || c == '\''
  {
    !(('a' <= c <= 'z') || ('A' <= c <= 'Z') || c == '\'')
  }
}
