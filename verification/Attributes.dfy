/**
 The 14 standard user attributes: validation and normalisation of a value before it is stored,
 run again on every read.
 */
module Attributes {
  import opened Basics

  datatype ValueType = Text | Phone | PostalCode | Country | Locale
  datatype Attribute = Attribute(valueType: ValueType, maxLength: nat)
  datatype Stored = Ok(value: string) | UnknownKey | Invalid

  /** The registry. */
  function GetAttribute(key: string): Option<Attribute> {
    if key in {"phone_work", "phone_mobile"} then Some(Attribute(Phone, 50))
    else if key in {"display_name", "job_title", "department", "organization", "employee_id",
                    "street_address", "city", "state"} then Some(Attribute(Text, 255))
    else if key == "postal_code" then Some(Attribute(PostalCode, 20))
    else if key == "country" then Some(Attribute(Country, 2))
    else if key == "preferred_language" then Some(Attribute(Locale, 10))
    else if key == "description" then Some(Attribute(Text, 2000))
    else None
  }

  // ---------------------------------------------------------------- characters

  /** What `str.strip` removes and `\s` matches. */
  predicate IsSpace(c: char) {
    || '\t' <= c <= '\r'
    || '\U{1c}' <= c <= ' '
    || c == '\U{85}' || c == '\U{a0}' || c == '\U{1680}'
    || '\U{2000}' <= c <= '\U{200a}'
    || c == '\U{2028}' || c == '\U{2029}' || c == '\U{202f}' || c == '\U{205f}' || c == '\U{3000}'
  }

  predicate IsUpper(c: char) {
    'A' <= c <= 'Z'
  }

  predicate IsLower(c: char) {
    'a' <= c <= 'z'
  }

  predicate IsAlpha(c: char) {
    IsUpper(c) || IsLower(c)
  }

  predicate IsAlnum(c: char) {
    IsAlpha(c) || '0' <= c <= '9'
  }

  const UPPER := "ABCDEFGHIJKLMNOPQRSTUVWXYZ"
  const LOWER := "abcdefghijklmnopqrstuvwxyz"
  const DIGITS := "0123456789"

  /** The characters Python counts as white space, one by one. */
  const SPACES := "\t\n\U{b}\U{c}\r\U{1c}\U{1d}\U{1e}\U{1f} \U{85}\U{a0}\U{1680}\U{2000}\U{2001}\U{2002}\U{2003}" +
                  "\U{2004}\U{2005}\U{2006}\U{2007}\U{2008}\U{2009}\U{200a}\U{2028}\U{2029}\U{202f}\U{205f}\U{3000}"

  /** The character classes, against their members. */
  lemma LettersAndDigits(c: char)
    ensures IsUpper(c) <==> c in UPPER
    ensures IsLower(c) <==> c in LOWER
    ensures IsAlpha(c) <==> c in UPPER || c in LOWER
    ensures IsAlnum(c) <==> c in UPPER || c in LOWER || c in DIGITS
  {
  }

  lemma Spaces(c: char)
    ensures IsSpace(c) <==> c in SPACES
  {
  }

  function UpperChar(c: char): char {
    if IsLower(c) then c - 'a' + 'A' else c
  }

  function LowerChar(c: char): char {
    if IsUpper(c) then c - 'A' + 'a' else c
  }

  /** `str.upper` and `str.lower`, used on ASCII letters and digits only. */
  function Upper(s: string): (r: string)
    ensures |r| == |s|
  {
    seq(|s|, i requires 0 <= i < |s| => UpperChar(s[i]))
  }

  function Lower(s: string): (r: string)
    ensures |r| == |s|
  {
    seq(|s|, i requires 0 <= i < |s| => LowerChar(s[i]))
  }

  predicate AllAlpha(s: string) {
    forall i :: 0 <= i < |s| ==> IsAlpha(s[i])
  }

  predicate AllAlnum(s: string) {
    forall i :: 0 <= i < |s| ==> IsAlnum(s[i])
  }

  // ---------------------------------------------------------------- strip

  function StripLeft(s: string): (r: string)
    ensures r == "" || !IsSpace(r[0])
    ensures |r| <= |s| && r == s[|s| - |r|..]
  {
    if s == "" || !IsSpace(s[0]) then s else StripLeft(s[1..])
  }

  function StripRight(s: string): (r: string)
    ensures r == "" || !IsSpace(r[|r| - 1])
    ensures r <= s
  {
    if s == "" || !IsSpace(s[|s| - 1]) then s else StripRight(s[..|s| - 1])
  }

  function Strip(s: string): string {
    StripRight(StripLeft(s))
  }

  predicate Stripped(s: string) {
    s == "" || (!IsSpace(s[0]) && !IsSpace(s[|s| - 1]))
  }

  lemma StripStrips(s: string)
    ensures Stripped(Strip(s)) && (Stripped(s) ==> Strip(s) == s)
  {
  }

  /** Stripping cuts off white space at both ends and nothing else. */
  lemma StripCuts(s: string) returns (i: nat, j: nat)
    ensures i <= j <= |s| && Strip(s) == s[i..j]
    ensures forall k :: 0 <= k < i || j <= k < |s| ==> IsSpace(s[k])
  {
    var left := StripLeft(s);
    StripLeftCuts(s);
    StripRightCuts(left);
    i := |s| - |left|;
    j := i + |Strip(s)|;
    assert left == s[i..] && Strip(s) == left[..|Strip(s)|];
    forall k | j <= k < |s|
      ensures IsSpace(s[k])
    {
      assert s[k] == left[k - i];
    }
  }

  lemma {:induction false} StripLeftCuts(s: string)
    ensures forall k :: 0 <= k < |s| - |StripLeft(s)| ==> IsSpace(s[k])
  {
    if s != "" && IsSpace(s[0]) {
      StripLeftCuts(s[1..]);
      forall k | 0 < k < |s| - |StripLeft(s)|
        ensures IsSpace(s[k])
      {
        assert s[k] == s[1..][k - 1];
      }
    }
  }

  lemma {:induction false} StripRightCuts(s: string)
    ensures forall k :: |StripRight(s)| <= k < |s| ==> IsSpace(s[k])
  {
    if s != "" && IsSpace(s[|s| - 1]) {
      StripRightCuts(s[..|s| - 1]);
    }
  }

  // ---------------------------------------------------------------- patterns

  /** `^(?=.*\d)[\d+\-\s().x]+$`; which characters are decimal digits is a parameter. */
  predicate PhoneMatches(s: string, decimal: char -> bool) {
    && s != ""
    && (forall i :: 0 <= i < |s| ==> decimal(s[i]) || IsSpace(s[i]) || s[i] in "+-().x")
    && exists i :: 0 <= i < |s| && decimal(s[i]) && '\n' !in s[..i]
  }

  /** `^[A-Za-z0-9\s\-]+$`. */
  predicate PostalMatches(s: string) {
    s != "" && forall i :: 0 <= i < |s| ==> IsAlnum(s[i]) || IsSpace(s[i]) || s[i] == '-'
  }

  /** `^[A-Za-z]{2}$`. */
  predicate CountryMatches(s: string) {
    |s| == 2 && AllAlpha(s)
  }

  /** `^[A-Za-z]{2,3}(?:-[A-Za-z0-9]{2,4})*$`. */
  predicate LocaleMatches(s: string) {
    exists n :: 2 <= n <= 3 && n <= |s| && AllAlpha(s[..n]) && SubtagsMatch(s[n..])
  }

  predicate SubtagsMatch(s: string) {
    s == "" || exists n :: 2 <= n <= 4 && SubtagOf(s, n) && SubtagsMatch(s[n + 1..])
  }

  predicate SubtagOf(s: string, n: nat) {
    n + 1 <= |s| && s[0] == '-' && AllAlnum(s[1..n + 1])
  }

  // ---------------------------------------------------------------- split and join

  /** `s.split("-")`. */
  function Split(s: string): (parts: seq<string>)
    ensures |parts| >= 1
    ensures forall i :: 0 <= i < |parts| ==> '-' !in parts[i]
  {
    if s == "" then [""]
    else
      var rest := Split(s[1..]);
      if s[0] == '-' then [""] + rest else [[s[0]] + rest[0]] + rest[1..]
  }

  /** `"-".join(parts)`. */
  function Join(parts: seq<string>): string
    requires |parts| >= 1
  {
    if |parts| == 1 then parts[0] else parts[0] + "-" + Join(parts[1..])
  }

  lemma {:induction false} JoinSplit(s: string)
    ensures Join(Split(s)) == s
  {
    if s != "" {
      var rest := Split(s[1..]);
      JoinSplit(s[1..]);
      if s[0] == '-' {
        assert ([""] + rest)[1..] == rest;
        assert Join([""] + rest) == "-" + Join(rest);
      } else {
        var parts := [[s[0]] + rest[0]] + rest[1..];
        assert parts[1..] == rest[1..];
        assert Join(parts) == [s[0]] + Join(rest);
      }
    }
  }

  /** Splitting after the first part. */
  lemma {:induction false} SplitFirst(part: string, tail: string)
    requires '-' !in part
    ensures Split(part + "-" + tail) == [part] + Split(tail)
  {
    var s := part + "-" + tail;
    if part == "" {
      assert s[1..] == tail;
    } else {
      assert s[1..] == part[1..] + "-" + tail;
      SplitFirst(part[1..], tail);
      assert part == [part[0]] + part[1..];
    }
  }

  lemma {:induction false} SplitWhole(part: string)
    requires '-' !in part
    ensures Split(part) == [part]
  {
    if part != "" {
      SplitWhole(part[1..]);
      assert part == [part[0]] + part[1..];
    }
  }

  lemma {:induction false} SplitJoin(parts: seq<string>)
    requires |parts| >= 1 && forall i :: 0 <= i < |parts| ==> '-' !in parts[i]
    ensures Split(Join(parts)) == parts
  {
    if |parts| == 1 {
      SplitWhole(parts[0]);
    } else {
      SplitJoin(parts[1..]);
      SplitFirst(parts[0], Join(parts[1..]));
    }
  }

  // ---------------------------------------------------------------- locales as parts

  predicate SubtagsOk(parts: seq<string>) {
    forall i :: 0 <= i < |parts| ==> 2 <= |parts[i]| <= 4 && AllAlnum(parts[i])
  }

  /** What the locale pattern says about the split value. */
  predicate TagOk(parts: seq<string>) {
    |parts| >= 1 && 2 <= |parts[0]| <= 3 && AllAlpha(parts[0]) && SubtagsOk(parts[1..])
  }

  function JoinTail(parts: seq<string>): string {
    if parts == [] then "" else "-" + parts[0] + JoinTail(parts[1..])
  }

  lemma {:induction false} JoinAsTail(parts: seq<string>)
    requires |parts| >= 1
    ensures Join(parts) == parts[0] + JoinTail(parts[1..])
  {
    if |parts| > 1 {
      JoinAsTail(parts[1..]);
    }
  }

  lemma {:induction false} OkSubtagsMatch(parts: seq<string>)
    requires SubtagsOk(parts)
    ensures SubtagsMatch(JoinTail(parts))
  {
    if parts != [] {
      OkSubtagsMatch(parts[1..]);
      var s, n := JoinTail(parts), |parts[0]|;
      assert s[1..n + 1] == parts[0] && s[n + 1..] == JoinTail(parts[1..]);
      assert SubtagOf(s, n);
    }
  }

  lemma {:induction false} MatchingSubtagsAreOk(s: string) returns (parts: seq<string>)
    requires SubtagsMatch(s)
    ensures SubtagsOk(parts) && JoinTail(parts) == s
    decreases |s|
  {
    if s == "" {
      parts := [];
    } else {
      var n :| 2 <= n <= 4 && SubtagOf(s, n) && SubtagsMatch(s[n + 1..]);
      var rest := MatchingSubtagsAreOk(s[n + 1..]);
      parts := [s[1..n + 1]] + rest;
      assert parts[1..] == rest;
      assert s == "-" + s[1..n + 1] + s[n + 1..];
    }
  }

  lemma PlainParts(parts: seq<string>)
    requires TagOk(parts)
    ensures forall i :: 0 <= i < |parts| ==> '-' !in parts[i]
  {
  }

  lemma JoinedTagMatches(parts: seq<string>)
    requires TagOk(parts)
    ensures LocaleMatches(Join(parts)) && Split(Join(parts)) == parts
  {
    JoinAsTail(parts);
    OkSubtagsMatch(parts[1..]);
    var s, n := Join(parts), |parts[0]|;
    assert s[..n] == parts[0] && s[n..] == JoinTail(parts[1..]);
    PlainParts(parts);
    SplitJoin(parts);
  }

  /** The pattern holds exactly when the parts between dashes are well formed. */
  lemma LocaleMatchesIffParts(s: string)
    ensures LocaleMatches(s) <==> TagOk(Split(s))
  {
    if TagOk(Split(s)) {
      JoinedTagMatches(Split(s));
      JoinSplit(s);
    }
    if LocaleMatches(s) {
      var n :| 2 <= n <= 3 && n <= |s| && AllAlpha(s[..n]) && SubtagsMatch(s[n..]);
      var tail := MatchingSubtagsAreOk(s[n..]);
      var parts := [s[..n]] + tail;
      assert parts[1..] == tail;
      JoinAsTail(parts);
      assert s == s[..n] + s[n..];
      JoinedTagMatches(parts);
    }
  }

  // ---------------------------------------------------------------- canonical form

  predicate IsRegion(part: string) {
    2 <= |part| <= 3 && AllAlpha(part)
  }

  function CanonicalParts(parts: seq<string>): (r: seq<string>)
    requires |parts| >= 1
    ensures |r| == |parts|
  {
    var lowered := parts[0 := Lower(parts[0])];
    if |parts| >= 2 && IsRegion(parts[1]) then lowered[1 := Upper(parts[1])] else lowered
  }

  /** No letter of the part is upper case. */
  ghost predicate NoUpper(part: string) {
    forall i :: 0 <= i < |part| ==> !IsUpper(part[i])
  }

  ghost predicate NoLower(part: string) {
    forall i :: 0 <= i < |part| ==> !IsLower(part[i])
  }

  /**
   Part by part: the language has no upper case letter, a second part of two or three letters has no
   lower case letter, and every other part is the one given.
   */
  ghost predicate CasedLike(r: seq<string>, parts: seq<string>) {
    && |r| == |parts| >= 1
    && NoUpper(r[0])
    && (|parts| >= 2 ==>
          if 2 <= |parts[1]| <= 3 && forall c :: c in parts[1] ==> IsAlpha(c) then NoLower(r[1]) else r[1] == parts[1])
    && (forall i :: 2 <= i < |parts| ==> r[i] == parts[i])
  }

  lemma CasedHasNone(s: string)
    ensures NoUpper(Lower(s)) && NoLower(Upper(s))
    ensures '-' !in s ==> '-' !in Lower(s) && '-' !in Upper(s)
  {
    forall i | 0 <= i < |s|
      ensures !IsUpper(LowerChar(s[i])) && !IsLower(UpperChar(s[i]))
      ensures s[i] != '-' ==> LowerChar(s[i]) != '-' && UpperChar(s[i]) != '-'
    {
    }
  }

  /** The parts of the canonical form, read off the form itself. */
  lemma CanonicalLocaleCase(s: string)
    ensures CasedLike(Split(Join(CanonicalParts(Split(s)))), Split(s))
  {
    var parts := Split(s);
    CasedHasNone(parts[0]);
    if |parts| >= 2 {
      CasedHasNone(parts[1]);
    }
    SplitJoin(CanonicalParts(parts));
  }

  /** Everything before the first dash is the first part. */
  lemma {:induction false} FirstPart(s: string, i: nat)
    requires i < |s| && '-' !in s[..i + 1]
    ensures i < |Split(s)[0]| && Split(s)[0][i] == s[i]
  {
    assert s[0] in s[..i + 1];
    if i > 0 {
      assert forall c :: c in s[1..][..i] ==> c in s[..i + 1];
      FirstPart(s[1..], i - 1);
    }
  }

  /** The same on characters: no upper case letter comes before the first dash of the canonical form. */
  lemma LanguageIsLower(s: string, i: nat)
    requires i < |Join(CanonicalParts(Split(s)))| && '-' !in Join(CanonicalParts(Split(s)))[..i + 1]
    ensures !IsUpper(Join(CanonicalParts(Split(s)))[i])
  {
    CanonicalLocaleCase(s);
    FirstPart(Join(CanonicalParts(Split(s))), i);
  }

  /** Language in lower case, a two- or three-letter region in upper case, the rest as given. */
  method CanonicalLocale(s: string) returns (r: string)
    ensures r == Join(CanonicalParts(Split(s)))
    ensures Lower(r) == Lower(s) && (LocaleMatches(s) ==> LocaleMatches(r))
    ensures CasedLike(Split(r), Split(s))
    ensures forall i :: 0 <= i < |r| && '-' !in r[..i + 1] ==> !IsUpper(r[i])
  {
    CanonicalLocaleSameTag(s);
    CanonicalLocaleCase(s);
    forall i | 0 <= i < |Join(CanonicalParts(Split(s)))| && '-' !in Join(CanonicalParts(Split(s)))[..i + 1]
      ensures !IsUpper(Join(CanonicalParts(Split(s)))[i])
    {
      LanguageIsLower(s, i);
    }
    if LocaleMatches(s) {
      CanonicalLocaleStable(s);
    }
    var parts := Split(s);
    parts := parts[0 := Lower(parts[0])];
    if |parts| >= 2 && IsRegion(parts[1]) {
      parts := parts[1 := Upper(parts[1])];
    }
    r := Join(parts);
  }

  lemma CaseStable(s: string)
    ensures Lower(Lower(s)) == Lower(s) && Upper(Upper(s)) == Upper(s)
    ensures Lower(Upper(s)) == Lower(s)
    ensures AllAlpha(s) ==> AllAlpha(Lower(s)) && AllAlpha(Upper(s))
  {
  }

  lemma CanonicalPartsStable(parts: seq<string>)
    requires TagOk(parts)
    ensures TagOk(CanonicalParts(parts)) && CanonicalParts(CanonicalParts(parts)) == CanonicalParts(parts)
  {
    var r := CanonicalParts(parts);
    CaseStable(parts[0]);
    if |parts| >= 2 {
      CaseStable(parts[1]);
      assert parts[1] == parts[1..][0];
    }
    forall i | 0 <= i < |r[1..]|
      ensures 2 <= |r[1..][i]| <= 4 && AllAlnum(r[1..][i])
    {
      assert parts[1..][i] == parts[i + 1];
    }
  }

  /** The canonical form still matches, and canonicalising it again changes nothing. */
  lemma CanonicalLocaleStable(s: string)
    requires LocaleMatches(s)
    ensures var r := Join(CanonicalParts(Split(s)));
            LocaleMatches(r) && Join(CanonicalParts(Split(r))) == r
  {
    LocaleMatchesIffParts(s);
    CanonicalPartsStable(Split(s));
    JoinedTagMatches(CanonicalParts(Split(s)));
  }

  lemma LowerConcat(a: string, b: string)
    ensures Lower(a + b) == Lower(a) + Lower(b)
  {
  }

  lemma {:induction false} JoinKeepsFold(a: seq<string>, b: seq<string>)
    requires |a| == |b| >= 1 && forall i :: 0 <= i < |a| ==> Lower(a[i]) == Lower(b[i])
    ensures Lower(Join(a)) == Lower(Join(b))
    decreases |a|
  {
    if |a| > 1 {
      JoinKeepsFold(a[1..], b[1..]);
      LowerConcat(a[0] + "-", Join(a[1..]));
      LowerConcat(b[0] + "-", Join(b[1..]));
      LowerConcat(a[0], "-");
      LowerConcat(b[0], "-");
    }
  }

  /** Only letter case changes: the canonical form is the same language tag, as tags ignore case. */
  lemma CanonicalLocaleSameTag(s: string)
    ensures Lower(Join(CanonicalParts(Split(s)))) == Lower(s)
  {
    var parts := Split(s);
    CaseStable(parts[0]);
    if |parts| >= 2 {
      CaseStable(parts[1]);
    }
    JoinKeepsFold(CanonicalParts(parts), parts);
    JoinSplit(s);
  }

  // ---------------------------------------------------------------- serialize

  /** The type-specific half of `serialize`. */
  function Normalized(valueType: ValueType, s: string, decimal: char -> bool): Stored {
    match valueType
    case Country => if CountryMatches(s) then Ok(Upper(s)) else Invalid
    case Locale => if LocaleMatches(s) then Ok(Join(CanonicalParts(Split(s)))) else Invalid
    case Phone => if PhoneMatches(s, decimal) then Ok(s) else Invalid
    case PostalCode => if PostalMatches(s) then Ok(s) else Invalid
    case Text => Ok(s)
  }

  /** `serialize` for a known attribute. */
  function SerializeAs(attribute: Attribute, value: string, decimal: char -> bool): Stored {
    var s := Strip(value);
    if s == "" || |s| > attribute.maxLength then Invalid else Normalized(attribute.valueType, s, decimal)
  }

  function Serialize(key: string, value: string, decimal: char -> bool): Stored {
    var attribute := GetAttribute(key);
    if attribute.None? then UnknownKey else SerializeAs(attribute.value, value, decimal)
  }

  /** Reading runs the same validation again. */
  function Deserialize(key: string, raw: string, decimal: char -> bool): Stored {
    Serialize(key, raw, decimal)
  }

  lemma SameLengthFold(r: string, s: string)
    requires Lower(r) == Lower(s)
    ensures |r| == |s|
  {
  }

  lemma FoldKeepsSpaces(r: string, s: string)
    requires Lower(r) == Lower(s) && Stripped(s)
    ensures Stripped(r)
  {
    SameLengthFold(r, s);
    forall i | 0 <= i < |s|
      ensures IsSpace(r[i]) <==> IsSpace(s[i])
    {
      assert Lower(r)[i] == LowerChar(r[i]) && Lower(s)[i] == LowerChar(s[i]);
    }
  }

  /** Normalising keeps the length and the trimmed ends, and changes nothing the second time. */
  lemma NormalizedIsStable(valueType: ValueType, s: string, decimal: char -> bool)
    requires Stripped(s) && Normalized(valueType, s, decimal).Ok?
    ensures var r := Normalized(valueType, s, decimal).value;
            && Stripped(r) && Lower(r) == Lower(s) && |r| == |s|
            && Normalized(valueType, r, decimal) == Ok(r)
  {
    var r := Normalized(valueType, s, decimal).value;
    if valueType == Country {
      CaseStable(s);
    } else if valueType == Locale {
      CanonicalLocaleStable(s);
      CanonicalLocaleSameTag(s);
    }
    SameLengthFold(r, s);
    FoldKeepsSpaces(r, s);
  }

  lemma AcceptedReadsBack(attribute: Attribute, value: string, decimal: char -> bool)
    requires SerializeAs(attribute, value, decimal).Ok?
    ensures var stored := SerializeAs(attribute, value, decimal).value;
            && SerializeAs(attribute, stored, decimal) == Ok(stored)
            && stored != "" && |stored| <= attribute.maxLength
            && Lower(stored) == Lower(Strip(value))
  {
    var s := Strip(value);
    StripStrips(value);
    NormalizedIsStable(attribute.valueType, s, decimal);
    StripStrips(Normalized(attribute.valueType, s, decimal).value);
  }

  /**
   Whatever is accepted is stored within the length limit, differs from the trimmed input in letter
   case at most, and reads back exactly as stored.
   */
  lemma StoredReadsBack(key: string, value: string, decimal: char -> bool)
    requires Serialize(key, value, decimal).Ok?
    ensures var stored := Serialize(key, value, decimal).value;
            && Deserialize(key, stored, decimal) == Ok(stored)
            && stored != "" && |stored| <= GetAttribute(key).value.maxLength
            && Lower(stored) == Lower(Strip(value))
  {
    AcceptedReadsBack(GetAttribute(key).value, value, decimal);
  }

  // ---------------------------------------------------------------- what each attribute accepts

  /** The registry, key by key. */
  lemma Registry(key: string)
    ensures key in ["phone_work", "phone_mobile"] <==> GetAttribute(key) == Some(Attribute(Phone, 50))
    ensures key == "postal_code" <==> GetAttribute(key) == Some(Attribute(PostalCode, 20))
    ensures key == "country" <==> GetAttribute(key) == Some(Attribute(Country, 2))
    ensures key == "preferred_language" <==> GetAttribute(key) == Some(Attribute(Locale, 10))
    ensures key == "description" <==> GetAttribute(key) == Some(Attribute(Text, 2000))
    ensures GetAttribute(key) == Some(Attribute(Text, 255)) <==>
            key in ["display_name", "job_title", "department", "organization", "employee_id", "street_address",
                    "city", "state"]
    ensures GetAttribute(key).Some? ==>
              GetAttribute(key).value in [Attribute(Phone, 50), Attribute(PostalCode, 20), Attribute(Country, 2),
                                          Attribute(Locale, 10), Attribute(Text, 2000), Attribute(Text, 255)]
  {
  }

  /** A phone number has only phone characters, and a digit on its first line. */
  lemma PhoneMatchesIff(s: string, decimal: char -> bool)
    ensures PhoneMatches(s, decimal) <==>
            && (forall c :: c in s ==> decimal(c) || IsSpace(c) || c in "+-().x")
            && exists i :: 0 <= i < |s| && decimal(s[i]) && '\n' !in s[..i]
  {
    if forall i :: 0 <= i < |s| ==> decimal(s[i]) || IsSpace(s[i]) || s[i] in "+-().x" {
      forall c | c in s
        ensures decimal(c) || IsSpace(c) || c in "+-().x"
      {
        var i :| 0 <= i < |s| && s[i] == c;
      }
    }
  }

  /** A postal code has letters, digits, spaces and dashes, at least one of them. */
  lemma PostalMatchesIff(s: string)
    ensures PostalMatches(s) <==> s != "" && forall c :: c in s ==> IsAlnum(c) || IsSpace(c) || c == '-'
  {
    if forall i :: 0 <= i < |s| ==> IsAlnum(s[i]) || IsSpace(s[i]) || s[i] == '-' {
      forall c | c in s
        ensures IsAlnum(c) || IsSpace(c) || c == '-'
      {
        var i :| 0 <= i < |s| && s[i] == c;
      }
    }
  }

  /** A phone number that matches and is not too long is stored as trimmed, any other is refused. */
  lemma PhoneIff(max: nat, value: string, decimal: char -> bool)
    ensures var r, s := SerializeAs(Attribute(Phone, max), value, decimal), Strip(value);
            if |s| <= max && PhoneMatches(s, decimal) then r == Ok(s) else r == Invalid
  {
  }

  /** A postal code that matches and is not too long is stored as trimmed, any other is refused. */
  lemma PostalIff(max: nat, value: string, decimal: char -> bool)
    ensures var r, s := SerializeAs(Attribute(PostalCode, max), value, decimal), Strip(value);
            if |s| <= max && PostalMatches(s) then r == Ok(s) else r == Invalid
  {
  }

  /** A country is accepted exactly as two letters, and stored as the same two in upper case. */
  lemma CountryIff(value: string, decimal: char -> bool)
    ensures var r, s := SerializeAs(Attribute(Country, 2), value, decimal), Strip(value);
            if |s| == 2 && IsAlpha(s[0]) && IsAlpha(s[1])
            then r.Ok? && Lower(r.value) == Lower(s) && |r.value| == 2 && IsUpper(r.value[0]) && IsUpper(r.value[1])
            else r == Invalid
  {
    CaseStable(Strip(value));
  }

  /** Two or three letters, then any number of subtags of two to four letters and digits. */
  ghost predicate WellFormedTag(parts: seq<string>) {
    && 1 <= |parts| && 2 <= |parts[0]| <= 3 && (forall c :: c in parts[0] ==> IsAlpha(c))
    && forall i :: 1 <= i < |parts| ==> 2 <= |parts[i]| <= 4 && forall c :: c in parts[i] ==> IsAlnum(c)
  }

  lemma WellFormedTagIff(parts: seq<string>)
    ensures TagOk(parts) <==> WellFormedTag(parts)
  {
    assert forall i :: 1 <= i < |parts| ==> parts[i] == parts[1..][i - 1];
  }

  /** A language is accepted exactly as a well-formed tag that is not too long, and stored in canonical case. */
  lemma LanguageIff(max: nat, value: string, decimal: char -> bool)
    ensures var r, s := SerializeAs(Attribute(Locale, max), value, decimal), Strip(value);
            if |s| <= max && WellFormedTag(Split(s))
            then r.Ok? && Lower(r.value) == Lower(s) && CasedLike(Split(r.value), Split(s))
            else r == Invalid
  {
    var s := Strip(value);
    LocaleMatchesIffParts(s);
    CanonicalLocaleSameTag(s);
    CanonicalLocaleCase(s);
    WellFormedTagIff(Split(s));
    assert s == "" ==> Split(s) == [""];
  }

  /** Any other attribute takes any text of at least one and at most its length in characters, as trimmed. */
  lemma TextIff(max: nat, value: string, decimal: char -> bool)
    ensures var r, s := SerializeAs(Attribute(Text, max), value, decimal), Strip(value);
            if 1 <= |s| <= max then r == Ok(s) else r == Invalid
  {
  }

  /** Storing and reading by key is the registered attribute's rule; a key that is not registered is refused. */
  lemma KeyIff(key: string, attribute: Attribute, value: string, decimal: char -> bool)
    ensures GetAttribute(key) == None ==> Serialize(key, value, decimal) == UnknownKey
    ensures GetAttribute(key) == Some(attribute) ==>
              Serialize(key, value, decimal) == SerializeAs(attribute, value, decimal)
  {
  }
}
