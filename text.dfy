/** The two string operations the game applies to a chat message before
    comparing it: `str.strip()` (drop surrounding white space) and
    `str.lower()` (fold upper-case letters). */
module Text {

  /** The characters for which Python's `str.isspace()` holds; `strip()` with
      no argument removes exactly these from both ends. */
  predicate IsSpace(ch: char) {
    || '\t' <= ch <= '\r'
    || '\U{1C}' <= ch <= ' '
    || ch == '\U{85}' || ch == '\U{A0}' || ch == '\U{1680}'
    || '\U{2000}' <= ch <= '\U{200A}'
    || ch == '\U{2028}' || ch == '\U{2029}' || ch == '\U{202F}'
    || ch == '\U{205F}' || ch == '\U{3000}'
  }

  predicate IsUpper(ch: char) {
    'A' <= ch <= 'Z'
  }

  /** Lower-casing of one character (ASCII letters only). */
  function LowerChar(ch: char): (r: char)
    ensures !IsUpper(r)
    ensures if IsUpper(ch) then r as int == ch as int - 'A' as int + 'a' as int else r == ch
  {
    if IsUpper(ch) then (ch as int - 'A' as int + 'a' as int) as char else ch
  }

  /** `s.lower()`: every upper-case letter folded, nothing else touched. */
  function Lower(s: string): (r: string)
    ensures |r| == |s|
  {
    if s == [] then [] else [LowerChar(s[0])] + Lower(s[1..])
  }

  /** Lower-casing keeps white space where it is, leaves no upper-case letter
      and changes no other character. */
  lemma LowerShape(s: string)
    ensures forall i :: 0 <= i < |s| ==> !IsUpper(Lower(s)[i]) && (IsSpace(Lower(s)[i]) <==> IsSpace(s[i]))
    ensures forall i :: 0 <= i < |s| && !IsUpper(s[i]) ==> Lower(s)[i] == s[i]
  {
    forall i | 0 <= i < |s|
      ensures !IsUpper(Lower(s)[i]) && (IsSpace(Lower(s)[i]) <==> IsSpace(s[i]))
      ensures !IsUpper(s[i]) ==> Lower(s)[i] == s[i]
    {
      LowerAt(s, i);
    }
  }

  /** Character `i` of `s.lower()` is character `i` of `s`, lower-cased. */
  lemma {:induction false} LowerAt(s: string, i: nat)
    requires i < |s|
    ensures Lower(s)[i] == LowerChar(s[i])
  {
    if i > 0 {
      LowerAt(s[1..], i - 1);
    }
  }

  /** `s.lstrip()`: a suffix of `s`. */
  function TrimStart(s: string): (r: string)
    ensures |r| <= |s| && r == s[|s| - |r|..]
  {
    if s != [] && IsSpace(s[0]) then TrimStart(s[1..]) else s
  }

  /** Everything `s.lstrip()` drops is white space. */
  lemma {:induction false} TrimStartDropsSpace(s: string, i: nat)
    requires i < |s| - |TrimStart(s)|
    ensures IsSpace(s[i])
  {
    if i > 0 {
      TrimStartDropsSpace(s[1..], i - 1);
    }
  }

  /** What `s.lstrip()` leaves does not start with white space. */
  lemma {:induction false} TrimStartFirst(s: string)
    ensures TrimStart(s) == [] || !IsSpace(TrimStart(s)[0])
  {
    if s != [] && IsSpace(s[0]) {
      TrimStartFirst(s[1..]);
    }
  }

  /** `s.rstrip()`: a prefix of `s`. */
  function TrimEnd(s: string): (r: string)
    ensures |r| <= |s| && r == s[..|r|]
  {
    if s != [] && IsSpace(s[|s| - 1]) then TrimEnd(s[..|s| - 1]) else s
  }

  /** Everything `s.rstrip()` drops is white space. */
  lemma {:induction false} TrimEndDropsSpace(s: string, i: nat)
    requires |TrimEnd(s)| <= i < |s|
    ensures IsSpace(s[i])
  {
    if i < |s| - 1 {
      TrimEndDropsSpace(s[..|s| - 1], i);
    }
  }

  /** What `s.rstrip()` leaves does not end with white space. */
  lemma {:induction false} TrimEndLast(s: string)
    ensures TrimEnd(s) == [] || !IsSpace(TrimEnd(s)[|TrimEnd(s)| - 1])
  {
    if s != [] && IsSpace(s[|s| - 1]) {
      TrimEndLast(s[..|s| - 1]);
    }
  }

  /** `s.strip()`. */
  function Strip(s: string): (r: string)
    ensures |r| <= |s|
  {
    TrimEnd(TrimStart(s))
  }

  /** A stripped string neither starts nor ends with white space. */
  lemma StripShape(s: string)
    ensures Strip(s) == [] || (!IsSpace(Strip(s)[0]) && !IsSpace(Strip(s)[|Strip(s)| - 1]))
  {
    var t := TrimStart(s);
    TrimStartFirst(s);
    TrimEndLast(t);
    assert Strip(s) == t[..|Strip(s)|];
  }

  /** `s.strip().lower()`: the form in which a chat message is compared. */
  function Normalize(s: string): (r: string)
    ensures |r| <= |s|
  {
    Lower(Strip(s))
  }

  /** A normalised message has no white space at either end and no
      upper-case letter. */
  lemma NormalizeShape(s: string)
    ensures forall i :: 0 <= i < |Normalize(s)| ==> !IsUpper(Normalize(s)[i])
    ensures Normalize(s) == [] || (!IsSpace(Normalize(s)[0]) && !IsSpace(Normalize(s)[|Normalize(s)| - 1]))
  {
    StripShape(s);
    LowerShape(Strip(s));
  }

  /** Lower-casing twice is lower-casing once: the guess is already lower-case
      when the matcher lowers it again. */
  lemma LowerIdempotent(s: string)
    ensures Lower(Lower(s)) == Lower(s)
  {
    LowerShape(s);
    LowerShape(Lower(s));
  }

  /** Stripping what is already stripped changes nothing. */
  lemma {:induction false} StripStripped(s: string)
    requires s == [] || (!IsSpace(s[0]) && !IsSpace(s[|s| - 1]))
    ensures Strip(s) == s
  {
  }
}
