/** `LocalizableString<TDerived>`: an immutable map from culture to text together with a preferred
    culture. Text is resolved for a culture by exact match, falling back to the preferred culture's
    entry; equality and ordering are defined on the resolved texts, never on the maps. Culture-aware
    collation is replaced by ordinal (code-point) comparison. */
module Localization {
  import opened Common

  /** An opaque locale identifier; only equality matters. */
  datatype Culture = Invariant | Named(tag: string)

  datatype LocalizableString = LocalizableString(preferredCulture: Culture, localizations: map<Culture, string>)

  /** The interface's guarantee: a localization exists for the preferred culture. */
  predicate Valid(s: LocalizableString)
  {
    s.preferredCulture in s.localizations
  }

  /** The invariant-culture constructor: null text throws; otherwise the only entry is the invariant
      one, which is also preferred. */
  function FromInvariant(invariantLocalization: Option<string>): (r: Result<LocalizableString>)
    ensures invariantLocalization.None? <==> r == Err(ArgumentNull("invariantLocalization"))
    ensures invariantLocalization.Some? ==>
      r.Ok? && Valid(r.value) &&
      r.value == LocalizableString(Invariant, map[Invariant := invariantLocalization.value])
  {
    match invariantLocalization
    case None => Err(ArgumentNull("invariantLocalization"))
    case Some(text) => Ok(LocalizableString(Invariant, map[Invariant := text]))
  }

  /** The single-culture constructor: the text is checked for null before the culture. */
  function FromCulture(localization: Option<string>, culture: Option<Culture>): (r: Result<LocalizableString>)
    ensures localization.None? ==> r == Err(ArgumentNull("localization"))
    ensures localization.Some? && culture.None? ==> r == Err(ArgumentNull("culture"))
    ensures localization.Some? && culture.Some? ==>
      r.Ok? && Valid(r.value) &&
      r.value == LocalizableString(culture.value, map[culture.value := localization.value])
  {
    if localization.None? then Err(ArgumentNull("localization"))
    else if culture.None? then Err(ArgumentNull("culture"))
    else Ok(LocalizableString(culture.value, map[culture.value := localization.value]))
  }

  /** The map constructor as written: the preferred culture is checked for null before the map, and
      nothing checks that the map has an entry for the preferred culture. */
  function FromMapAsWritten(preferredCulture: Option<Culture>, localizations: Option<map<Culture, string>>)
    : (r: Result<LocalizableString>)
    ensures preferredCulture.None? ==> r == Err(ArgumentNull("preferredCulture"))
    ensures preferredCulture.Some? && localizations.None? ==> r == Err(ArgumentNull("localizations"))
    ensures preferredCulture.Some? && localizations.Some? ==>
      r == Ok(LocalizableString(preferredCulture.value, localizations.value))
  {
    if preferredCulture.None? then Err(ArgumentNull("preferredCulture"))
    else if localizations.None? then Err(ArgumentNull("localizations"))
    else Ok(LocalizableString(preferredCulture.value, localizations.value))
  }

  /** The map constructor under its documented obligation that the map holds the preferred culture;
      every string it builds is then `Valid`. */
  function FromMap(preferredCulture: Option<Culture>, localizations: Option<map<Culture, string>>)
    : (r: Result<LocalizableString>)
    requires preferredCulture.Some? && localizations.Some? ==> preferredCulture.value in localizations.value
    ensures preferredCulture.None? ==> r == Err(ArgumentNull("preferredCulture"))
    ensures preferredCulture.Some? && localizations.None? ==> r == Err(ArgumentNull("localizations"))
    ensures r.Ok? ==> Valid(r.value)
    ensures r.Ok? ==> r.value.localizations == localizations.value && r.value.preferredCulture == preferredCulture.value
  {
    FromMapAsWritten(preferredCulture, localizations)
  }

  /** `ToString(culture)` as written: it indexes the map with the preferred culture whenever the
      requested culture is null or absent, which throws when that entry is missing. */
  function ToStringAsWritten(s: LocalizableString, culture: Option<Culture>): (r: Result<string>)
    ensures culture.Some? && culture.value in s.localizations ==> r == Ok(s.localizations[culture.value])
    ensures r.Err? <==> (culture.None? || culture.value !in s.localizations) && !Valid(s)
  {
    if culture.None? then
      if s.preferredCulture in s.localizations then Ok(s.localizations[s.preferredCulture]) else Err(KeyNotFound)
    else if culture.value in s.localizations then
      Ok(s.localizations[culture.value])
    else
      if s.preferredCulture in s.localizations then Ok(s.localizations[s.preferredCulture]) else Err(KeyNotFound)
  }

  /** Resolution on a valid string: null culture gives the preferred entry, a present culture its own
      entry, an absent culture the preferred entry. It never fails. */
  function Resolve(s: LocalizableString, culture: Option<Culture>): (r: string)
    requires Valid(s)
    ensures culture.None? ==> r == s.localizations[s.preferredCulture]
    ensures culture.Some? && culture.value in s.localizations ==> r == s.localizations[culture.value]
    ensures culture.Some? && culture.value !in s.localizations ==> r == s.localizations[s.preferredCulture]
    ensures r in s.localizations.Values
  {
    if culture.Some? && culture.value in s.localizations then
      s.localizations[culture.value]
    else
      s.localizations[s.preferredCulture]
  }

  /** On a valid string the as-written `ToString` never throws and agrees with `Resolve`. */
  lemma ToStringAgreesWithResolve(s: LocalizableString, culture: Option<Culture>)
    requires Valid(s)
    ensures ToStringAsWritten(s, culture) == Ok(Resolve(s, culture))
  {
  }

  /** A string built by the unchecked map constructor without the preferred culture: construction
      succeeds, and the first parameterless `ToString` then throws. */
  lemma FromMapAsWrittenAcceptsMissingPreferred()
    ensures FromMapAsWritten(Some(Named("fr")), Some(map[Named("de") := "Hallo"])).Ok?
    ensures ToStringAsWritten(FromMapAsWritten(Some(Named("fr")), Some(map[Named("de") := "Hallo"])).value, None)
      == Err(KeyNotFound)
  {
  }

  // ---------------------------------------------------------------------------------------------
  // Ordinal comparison of texts.

  /** Lexicographic comparison by character code: -1, 0 or 1. */
  function CompareOrdinal(a: string, b: string): (r: int)
    ensures -1 <= r <= 1
    decreases |a|
  {
    if |a| == 0 && |b| == 0 then 0
    else if |a| == 0 then -1
    else if |b| == 0 then 1
    else if a[0] < b[0] then -1
    else if b[0] < a[0] then 1
    else CompareOrdinal(a[1..], b[1..])
  }

  lemma {:induction false} CompareOrdinalZeroIffEqual(a: string, b: string)
    ensures CompareOrdinal(a, b) == 0 <==> a == b
    decreases |a|
  {
    if |a| > 0 && |b| > 0 && a[0] == b[0] {
      CompareOrdinalZeroIffEqual(a[1..], b[1..]);
      if a[1..] == b[1..] {
        assert a == [a[0]] + a[1..] && b == [b[0]] + b[1..];
      }
    }
  }

  lemma {:induction false} CompareOrdinalAntisymmetric(a: string, b: string)
    ensures CompareOrdinal(a, b) == -CompareOrdinal(b, a)
    decreases |a|
  {
    if |a| > 0 && |b| > 0 && a[0] == b[0] {
      CompareOrdinalAntisymmetric(a[1..], b[1..]);
    }
  }

  lemma {:induction false} CompareOrdinalTransitive(a: string, b: string, c: string)
    requires CompareOrdinal(a, b) < 0 && CompareOrdinal(b, c) < 0
    ensures CompareOrdinal(a, c) < 0
    decreases |a|
  {
    if |a| > 0 && |b| > 0 && |c| > 0 && a[0] == b[0] && b[0] == c[0] {
      CompareOrdinalTransitive(a[1..], b[1..], c[1..]);
    }
  }

  // ---------------------------------------------------------------------------------------------
  // Equality and ordering defined on resolved text.

  /** `Equals(other, culture)`: false against null; otherwise the texts both strings resolve to for
      `culture` compare equal. */
  function Equals(s: LocalizableString, other: Option<LocalizableString>, culture: Option<Culture>): (r: bool)
    requires Valid(s) && (other.Some? ==> Valid(other.value))
    ensures other.None? ==> !r
    ensures other.Some? ==> (r <==> Resolve(s, culture) == Resolve(other.value, culture))
  {
    match other
    case None => false
    case Some(o) =>
      CompareOrdinalZeroIffEqual(Resolve(s, culture), Resolve(o, culture));
      CompareOrdinal(Resolve(s, culture), Resolve(o, culture)) == 0
  }

  /** `CompareTo(other, culture)`: 1 against null; otherwise the ordinal order of the resolved texts,
      which is zero exactly when `Equals` holds for the same culture. */
  function CompareTo(s: LocalizableString, other: Option<LocalizableString>, culture: Option<Culture>): (r: int)
    requires Valid(s) && (other.Some? ==> Valid(other.value))
    ensures other.None? ==> r == 1
    ensures other.Some? ==> (r == 0 <==> Equals(s, other, culture))
    ensures -1 <= r <= 1
  {
    match other
    case None => 1
    case Some(o) =>
      CompareOrdinalZeroIffEqual(Resolve(s, culture), Resolve(o, culture));
      CompareOrdinal(Resolve(s, culture), Resolve(o, culture))
  }

  predicate ValidOrNull(s: Option<LocalizableString>)
  {
    s.Some? ==> Valid(s.value)
  }

  /** `==`: both null is equal, a null left operand is unequal to anything else, and otherwise
      `Equals` in the preferred cultures decides. */
  function OpEquals(left: Option<LocalizableString>, right: Option<LocalizableString>): (r: bool)
    requires ValidOrNull(left) && ValidOrNull(right)
    ensures left.None? ==> (r <==> right.None?)
    ensures left.Some? ==> r == Equals(left.value, right, None)
  {
    if left.None? then right.None? else Equals(left.value, right, None)
  }

  /** `!=`, with the same null conventions. */
  function OpNotEquals(left: Option<LocalizableString>, right: Option<LocalizableString>): (r: bool)
    requires ValidOrNull(left) && ValidOrNull(right)
    ensures left.None? ==> (r <==> right.Some?)
    ensures left.Some? ==> r == !Equals(left.value, right, None)
  {
    if left.None? then right.Some? else !Equals(left.value, right, None)
  }

  // ---------------------------------------------------------------------------------------------
  // Properties.

  /** `!=` is always the negation of `==`. */
  lemma NotEqualsNegatesEquals(left: Option<LocalizableString>, right: Option<LocalizableString>)
    requires ValidOrNull(left) && ValidOrNull(right)
    ensures OpNotEquals(left, right) == !OpEquals(left, right)
  {
  }

  /** `==` is symmetric, even though only the left operand's `Equals` runs. */
  lemma OpEqualsSymmetric(left: Option<LocalizableString>, right: Option<LocalizableString>)
    requires ValidOrNull(left) && ValidOrNull(right)
    ensures OpEquals(left, right) == OpEquals(right, left)
  {
  }

  /** Under a fixed culture, `Equals` is an equivalence on valid strings. */
  lemma EqualsIsEquivalence(a: LocalizableString, b: LocalizableString, c: LocalizableString, culture: Option<Culture>)
    requires Valid(a) && Valid(b) && Valid(c)
    ensures Equals(a, Some(a), culture)
    ensures Equals(a, Some(b), culture) == Equals(b, Some(a), culture)
    ensures Equals(a, Some(b), culture) && Equals(b, Some(c), culture) ==> Equals(a, Some(c), culture)
  {
  }

  /** `CompareTo` is antisymmetric and transitive under a fixed culture. */
  lemma CompareToIsOrdering(a: LocalizableString, b: LocalizableString, c: LocalizableString, culture: Option<Culture>)
    requires Valid(a) && Valid(b) && Valid(c)
    ensures CompareTo(a, Some(b), culture) == -CompareTo(b, Some(a), culture)
    ensures CompareTo(a, Some(b), culture) < 0 && CompareTo(b, Some(c), culture) < 0 ==> CompareTo(a, Some(c), culture) < 0
  {
    CompareOrdinalAntisymmetric(Resolve(a, culture), Resolve(b, culture));
    if CompareTo(a, Some(b), culture) < 0 && CompareTo(b, Some(c), culture) < 0 {
      CompareOrdinalTransitive(Resolve(a, culture), Resolve(b, culture), Resolve(c, culture));
    }
  }

  /** A string built from invariant text alone resolves to that text for every culture. */
  lemma InvariantTextResolvesEverywhere(text: string, culture: Option<Culture>)
    ensures FromInvariant(Some(text)).Ok?
    ensures Resolve(FromInvariant(Some(text)).value, culture) == text
  {
  }

  /** A single-culture string resolves to its only text for every culture, requested or not. */
  lemma SingleCultureResolvesEverywhere(text: string, home: Culture, culture: Option<Culture>)
    ensures FromCulture(Some(text), Some(home)).Ok?
    ensures Resolve(FromCulture(Some(text), Some(home)).value, culture) == text
  {
  }

  /** "Foo" in French equals "Foo" in German under Japanese (both fall back), and under no culture. */
  lemma FallbackMakesDifferentCulturesEqual()
    ensures FromCulture(Some("Foo"), Some(Named("fr"))).Ok? && FromCulture(Some("Foo"), Some(Named("de"))).Ok?
    ensures Equals(FromCulture(Some("Foo"), Some(Named("fr"))).value,
                   Some(FromCulture(Some("Foo"), Some(Named("de"))).value), Some(Named("ja")))
    ensures Equals(FromCulture(Some("Foo"), Some(Named("fr"))).value,
                   Some(FromCulture(Some("Foo"), Some(Named("de"))).value), None)
  {
  }
}
