/** The listing-input validator of
    src/frontend/src/features/listings/listingValidation.ts: six field rules
    checked in one pass, every failing field reported with its own message. */
module ListingValidation {
  import opened Backend
  import opened Text
  import opened Wrappers

  /** The checked properties of a `ListingInput`; they are the only keys the
      error record can hold (`contactInfo` and `images` are never checked). */
  datatype Field = Title | Description | Price | Category | Unit | Location

  /** The property name under which a field's error is stored. */
  function Key(f: Field): string
  {
    match f
    case Title => "title"
    case Description => "description"
    case Price => "price"
    case Category => "category"
    case Unit => "unit"
    case Location => "location"
  }

  /** What `validateListingInput` returns: the error record, keyed by field,
      and whether it is empty. */
  datatype ValidationResult = ValidationResult(isValid: bool, errors: map<Field, string>)

  const MaxTitleLength := 100
  const MinDescriptionLength := 10
  const MaxPrice: real := 10000000.0
  const MaxCategoryLength := 50
  const MaxUnitLength := 20
  const MaxLocationLength := 50

  const TitleRequired := "Title is required"
  const TitleTooLong := "Title cannot be longer than 100 characters"
  const DescriptionRequired := "Description is required"
  const DescriptionTooShort := "Description must be at least 10 characters"
  const PriceNegative := "Price must be positive"
  const PriceTooHigh := "Price must not exceed 10,000,000"
  const CategoryRequired := "Category is required"
  const CategoryTooLong := "Category cannot be longer than 50 characters"
  const UnitRequired := "Unit is required"
  const UnitTooLong := "Unit cannot be longer than 20 characters"
  const LocationRequired := "Location is required"
  const LocationTooLong := "Location cannot be longer than 50 characters"

  // ---------------------------------------------------------------------
  // The rules as a table: one value per field, one rule per field.
  // ---------------------------------------------------------------------

  /** The value a rule inspects: a text property or the price. */
  datatype FieldValue = TextValue(s: string) | Amount(r: real)

  /** The value of field `f` in `input`. */
  function ValueOf(input: ListingInput, f: Field): FieldValue
  {
    match f
    case Title => TextValue(input.title)
    case Description => TextValue(input.description)
    case Price => Amount(input.price)
    case Category => TextValue(input.category)
    case Unit => TextValue(input.unit)
    case Location => TextValue(input.location)
  }

  /** The message of a field's first check: a blank text field, or a
      negative price. */
  function FirstMessage(f: Field): string
  {
    match f
    case Title => TitleRequired
    case Description => DescriptionRequired
    case Price => PriceNegative
    case Category => CategoryRequired
    case Unit => UnitRequired
    case Location => LocationRequired
  }

  /** The message of a field's second check: a raw length out of bounds, or
      a price above the maximum. */
  function SecondMessage(f: Field): string
  {
    match f
    case Title => TitleTooLong
    case Description => DescriptionTooShort
    case Price => PriceTooHigh
    case Category => CategoryTooLong
    case Unit => UnitTooLong
    case Location => LocationTooLong
  }

  /** Whether a raw length `n` is acceptable for the text field `f`. The
      price has no length rule (`PriceRule` is its rule), so any length passes. */
  function LengthOk(f: Field, n: nat): bool
  {
    match f
    case Title => n <= MaxTitleLength
    case Description => n >= MinDescriptionLength
    case Price => true
    case Category => n <= MaxCategoryLength
    case Unit => n <= MaxUnitLength
    case Location => n <= MaxLocationLength
  }

  /** The rule for a text field: blank (after trimming) first, then the
      raw length. */
  ghost function TextRule(s: string, lengthOk: bool, required: string, bound: string): Option<string>
  {
    if Blank(s) then Some(required) else if !lengthOk then Some(bound) else None
  }

  /** The rule for the price: negative first, then the upper bound. */
  function PriceRule(p: real): Option<string>
  {
    if p < 0.0 then Some(PriceNegative) else if p > MaxPrice then Some(PriceTooHigh) else None
  }

  /** The error, if any, that the rule for field `f` reports for value `v`. */
  ghost function Violation(f: Field, v: FieldValue): Option<string>
  {
    match v
    case Amount(p) => PriceRule(p)
    case TextValue(s) => TextRule(s, LengthOk(f, |s|), FirstMessage(f), SecondMessage(f))
  }

  /** The error record the validator must produce: one entry per violated rule. */
  ghost function Errors(input: ListingInput): map<Field, string>
  {
    map f | Violation(f, ValueOf(input, f)).Some? :: Violation(f, ValueOf(input, f)).value
  }

  /** Record `e` holds exactly the error, if any, that the rule for `f`
      reports on `input`. */
  ghost predicate Reports(e: map<Field, string>, input: ListingInput, f: Field)
  {
    var v := Violation(f, ValueOf(input, f));
    (f in e <==> v.Some?) && (f in e ==> e[f] == v.value)
  }

  /** A record that reports every field's rule is the error record. */
  lemma ReportsAllFields(e: map<Field, string>, input: ListingInput)
    requires Reports(e, input, Title) && Reports(e, input, Description) && Reports(e, input, Price)
    requires Reports(e, input, Category) && Reports(e, input, Unit) && Reports(e, input, Location)
    ensures e == Errors(input)
  {
    var expected := Errors(input);
    forall f ensures (f in e <==> f in expected) && (f in e ==> e[f] == expected[f]) {
      assert Reports(e, input, f) by {
        match f
        case Title =>
        case Description =>
        case Price =>
        case Category =>
        case Unit =>
        case Location =>
      }
    }
    assert e.Keys == expected.Keys;
  }

  /** Record `e` with `error`, if any, stored under `f`. */
  function Record(e: map<Field, string>, f: Field, error: Option<string>): map<Field, string>
  {
    match error
    case Some(m) => e[f := m]
    case None => e
  }

  /** Record `e` after the rule for `f` has run on `input`. */
  ghost function Checked(e: map<Field, string>, input: ListingInput, f: Field): map<Field, string>
  {
    Record(e, f, Violation(f, ValueOf(input, f)))
  }

  /** Running the rule for `f` makes the record report `f` and leaves every
      other field's entry as it was. */
  lemma CheckedFrame(e: map<Field, string>, input: ListingInput, f: Field)
    requires f !in e
    ensures Reports(Checked(e, input, f), input, f)
    ensures forall g :: g != f ==> (g in Checked(e, input, f) <==> g in e)
    ensures forall g :: g != f && g in e ==> Checked(e, input, f)[g] == e[g]
  {
  }

  /** The record after the six rules have run, in `validateListingInput`'s order, on an
      empty record. */
  ghost function AfterAllRules(input: ListingInput): map<Field, string>
  {
    var e1 := Checked(map[], input, Title);
    var e2 := Checked(e1, input, Description);
    var e3 := Checked(e2, input, Price);
    var e4 := Checked(e3, input, Category);
    var e5 := Checked(e4, input, Unit);
    Checked(e5, input, Location)
  }

  /** Running the six rules one after the other builds the error record:
      no rule overwrites or drops another field's entry. */
  lemma AfterAllRulesIsErrors(input: ListingInput)
    ensures AfterAllRules(input) == Errors(input)
  {
    var e1 := Checked(map[], input, Title);
    var e2 := Checked(e1, input, Description);
    var e3 := Checked(e2, input, Price);
    var e4 := Checked(e3, input, Category);
    var e5 := Checked(e4, input, Unit);
    var e6 := Checked(e5, input, Location);
    CheckedFrame(map[], input, Title);
    CheckedFrame(e1, input, Description);
    CheckedFrame(e2, input, Price);
    CheckedFrame(e3, input, Category);
    CheckedFrame(e4, input, Unit);
    CheckedFrame(e5, input, Location);
    ReportsAllFields(e6, input);
  }

  /** The two messages field `f` can carry. */
  function Messages(f: Field): set<string>
  {
    {FirstMessage(f), SecondMessage(f)}
  }

  // ---------------------------------------------------------------------
  // The validator itself.
  // ---------------------------------------------------------------------

  /** The rule of each field, written out with its own constants as the
      validator's blocks state it. */
  lemma BlocksAsWritten(input: ListingInput)
    ensures AfterAllRules(input) ==
      var e1 := Record(map[], Title,
        TextRule(input.title, |input.title| <= MaxTitleLength, TitleRequired, TitleTooLong));
      var e2 := Record(e1, Description,
        TextRule(input.description, |input.description| >= MinDescriptionLength, DescriptionRequired, DescriptionTooShort));
      var e3 := Record(e2, Price, PriceRule(input.price));
      var e4 := Record(e3, Category,
        TextRule(input.category, |input.category| <= MaxCategoryLength, CategoryRequired, CategoryTooLong));
      var e5 := Record(e4, Unit,
        TextRule(input.unit, |input.unit| <= MaxUnitLength, UnitRequired, UnitTooLong));
      Record(e5, Location,
        TextRule(input.location, |input.location| <= MaxLocationLength, LocationRequired, LocationTooLong))
  {
  }

  /** One of the validator's five text-field blocks, storing its error under
      `f`: the required check on the trimmed value first, then the bound on
      the raw length. */
  method CheckTextField(errors: map<Field, string>, f: Field, value: string,
                        lengthOk: bool, required: string, bound: string)
    returns (updated: map<Field, string>)
    ensures updated == Record(errors, f, TextRule(value, lengthOk, required, bound))
  {
    TrimEmptyIffBlank(value);
    updated := errors;
    if Trim(value) == [] {
      updated := updated[f := required];
    } else if !lengthOk {
      updated := updated[f := bound];
    }
  }

  /** The validator's price block: negative first, then the upper bound. */
  method CheckPrice(errors: map<Field, string>, price: real) returns (updated: map<Field, string>)
    ensures updated == Record(errors, Price, PriceRule(price))
  {
    updated := errors;
    if price < 0.0 {
      updated := updated[Price := PriceNegative];
    } else if price > MaxPrice {
      updated := updated[Price := PriceTooHigh];
    }
  }

  /** `validateListingInput`: fills a local error record field by field (no
      early exit) and reports the input valid exactly when it stayed empty. */
  method ValidateListingInput(input: ListingInput) returns (result: ValidationResult)
    ensures result.errors == Errors(input)
    ensures result.isValid <==> result.errors == map[]
  {
    BlocksAsWritten(input);
    var errors: map<Field, string> := map[];
    errors := CheckTextField(errors, Title, input.title,
      |input.title| <= MaxTitleLength, TitleRequired, TitleTooLong);
    errors := CheckTextField(errors, Description, input.description,
      |input.description| >= MinDescriptionLength, DescriptionRequired, DescriptionTooShort);
    errors := CheckPrice(errors, input.price);
    errors := CheckTextField(errors, Category, input.category,
      |input.category| <= MaxCategoryLength, CategoryRequired, CategoryTooLong);
    errors := CheckTextField(errors, Unit, input.unit,
      |input.unit| <= MaxUnitLength, UnitRequired, UnitTooLong);
    errors := CheckTextField(errors, Location, input.location,
      |input.location| <= MaxLocationLength, LocationRequired, LocationTooLong);

    AfterAllRulesIsErrors(input);
    if |errors| == 0 {
      assert errors == map[];
    }
    result := ValidationResult(|errors| == 0, errors);
  }

  // ---------------------------------------------------------------------
  // Properties of the error record.
  // ---------------------------------------------------------------------

  /** Every rule, field by field: each field's error depends on that field
      alone, the required message wins over the bound, and lengths are raw
      (untrimmed). */
  lemma FieldRules(input: ListingInput)
    ensures var e := Errors(input);
      && (Title in e <==> Blank(input.title) || |input.title| > 100)
      && (Title in e ==> e[Title] == if Blank(input.title) then TitleRequired else TitleTooLong)
      && (Description in e <==> Blank(input.description) || |input.description| < 10)
      && (Description in e ==>
            e[Description] == if Blank(input.description) then DescriptionRequired else DescriptionTooShort)
      && (Price in e <==> input.price < 0.0 || input.price > 10000000.0)
      && (Price in e ==> e[Price] == if input.price < 0.0 then PriceNegative else PriceTooHigh)
      && (Category in e <==> Blank(input.category) || |input.category| > 50)
      && (Category in e ==>
            e[Category] == if Blank(input.category) then CategoryRequired else CategoryTooLong)
      && (Unit in e <==> Blank(input.unit) || |input.unit| > 20)
      && (Unit in e ==> e[Unit] == if Blank(input.unit) then UnitRequired else UnitTooLong)
      && (Location in e <==> Blank(input.location) || |input.location| > 50)
      && (Location in e ==>
            e[Location] == if Blank(input.location) then LocationRequired else LocationTooLong)
  {
  }

  /** The error keys are exactly the six checked property names; `contactInfo`
      and `images` never appear. */
  lemma KeysAreCheckedProperties(input: ListingInput)
    ensures Errors(input).Keys <= {Title, Description, Price, Category, Unit, Location}
    ensures forall f :: Key(f) in {"title", "description", "price", "category", "unit", "location"}
    ensures forall f :: Key(f) != "contactInfo" && Key(f) != "images"
    ensures forall f, g :: Key(f) == Key(g) ==> f == g
  {
    forall f, g | f != g ensures Key(f) != Key(g) {
      assert Key(f)[0] != Key(g)[0];
    }
  }

  /** Each reported field carries one of its own two fixed messages. */
  lemma MessagesAreFixed(input: ListingInput)
    ensures forall f :: f in Errors(input) ==> Errors(input)[f] in Messages(f)
  {
  }

  /** Field independence: two inputs that agree on field `f` get the same
      verdict and message for it, whatever their other fields hold. */
  lemma FieldIndependence(a: ListingInput, b: ListingInput, f: Field)
    requires ValueOf(a, f) == ValueOf(b, f)
    ensures f in Errors(a) <==> f in Errors(b)
    ensures f in Errors(a) ==> Errors(a)[f] == Errors(b)[f]
  {
  }

  /** `contactInfo` and `images` never influence the result. */
  lemma UncheckedFieldsIgnored(input: ListingInput, contactInfo: string, images: seq<string>)
    ensures Errors(input.(contactInfo := contactInfo, images := images)) == Errors(input)
  {
    var other := input.(contactInfo := contactInfo, images := images);
    assert forall f :: ValueOf(other, f) == ValueOf(input, f);
  }

  /** The input is valid exactly when all six rules hold. */
  lemma ValidIffAllRulesHold(input: ListingInput)
    ensures Errors(input) == map[] <==>
      && !Blank(input.title) && |input.title| <= 100
      && !Blank(input.description) && |input.description| >= 10
      && 0.0 <= input.price <= 10000000.0
      && !Blank(input.category) && |input.category| <= 50
      && !Blank(input.unit) && |input.unit| <= 20
      && !Blank(input.location) && |input.location| <= 50
  {
    FieldRules(input);
    var e := Errors(input);
    if e != map[] {
      var f :| f in e;
    }
  }

  /** Not fail-fast: when every field fails, all six are reported together. */
  lemma AllFailuresReported(input: ListingInput)
    requires Blank(input.title) && Blank(input.description) && input.price < 0.0
    requires Blank(input.category) && Blank(input.unit) && Blank(input.location)
    ensures Errors(input).Keys == {Title, Description, Price, Category, Unit, Location}
  {
    forall f ensures f in Errors(input) {
      assert Violation(f, ValueOf(input, f)).Some?;
    }
  }

  /** A 101-character title on an otherwise valid input yields exactly the
      title-length error. */
  lemma LongTitleOnly(input: ListingInput)
    requires |input.title| == 101 && !Blank(input.title)
    requires !Blank(input.description) && |input.description| >= 10
    requires 0.0 <= input.price <= 10000000.0
    requires !Blank(input.category) && |input.category| <= 50
    requires !Blank(input.unit) && |input.unit| <= 20
    requires !Blank(input.location) && |input.location| <= 50
    ensures Errors(input) == map[Title := TitleTooLong]
  {
    var e := Errors(input);
    forall f ensures f in e <==> f == Title {
      assert Violation(f, ValueOf(input, f)).Some? <==> f == Title;
    }
    assert e.Keys == {Title};
  }

  /** Boundaries: a price of exactly 0 or 10,000,000 is accepted, and a
      description of ten raw characters passes even when two of them are
      padding spaces. */
  lemma Boundaries(input: ListingInput)
    requires input.price == 0.0 || input.price == 10000000.0
    requires input.description == "  abcdefgh"
    ensures Price !in Errors(input)
    ensures Description !in Errors(input)
  {
    assert !IsWhitespace(input.description[2]);
  }
}
