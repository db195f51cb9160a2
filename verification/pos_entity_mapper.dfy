/**
 * The two hand-written methods of the POS entity mapper: `mergeHouseNumber`
 * renders the stored number and suffix of an address as one house-number
 * string, and `splitHouseNumber` copies the address fields of a domain `Pos`
 * into an `AddressEntity`, taking the house-number string apart into a number
 * (all its digits) and a suffix (its first non-digit).
 */
module PosEntityMapper {
  import opened Nullable
  import opened JavaText

  /** The address part of the domain `Pos` record: what `splitHouseNumber` reads. */
  datatype Pos = Pos(
    street: Option<string>,
    city: Option<string>,
    postalCode: Option<Int32>,
    houseNumber: Option<string>)

  /** The persisted address: the house number is stored as a number and a suffix character. */
  class AddressEntity {
    var street: Option<string>
    var city: Option<string>
    var postalCode: Option<Int32>
    var houseNumber: Option<Int32>
    var houseNumberSuffix: Option<char>

    /** Every field is null, as after `new AddressEntity()`. */
    predicate IsEmpty()
      reads this
    {
      street.None? && city.None? && postalCode.None? && houseNumber.None? && houseNumberSuffix.None?
    }

    constructor ()
      ensures IsEmpty()
    {
      street, city, postalCode := None, None, None;
      houseNumber, houseNumberSuffix := None, None;
    }
  }

  /** The persisted POS, reduced to the reference to its address. */
  class PosEntity {
    var address: AddressEntity?

    constructor (address: AddressEntity?)
      ensures this.address == address
    {
      this.address := address;
    }
  }

  /** The suffix as the string `StringBuilder.append(Character)` adds: one character, or nothing. */
  function SuffixString(suffix: Option<char>): (r: string)
    ensures |r| == if suffix.Some? then 1 else 0
    ensures suffix.Some? ==> r[0] == suffix.value
  {
    if suffix.Some? then [suffix.value] else []
  }

  // ---------------------------------------------------------------------
  // mergeHouseNumber
  // ---------------------------------------------------------------------

  /**
   * The string building of `mergeHouseNumber`: nothing without a number, whatever
   * the suffix; otherwise `String.valueOf(number)` followed by the suffix, if any.
   */
  function Merge(number: Option<Int32>, suffix: Option<char>): (r: Option<string>)
    ensures number.None? ==> r.None?
    ensures number.Some? ==> r.Some? && IntToString(number.value) <= r.value
    ensures number.Some? ==> |r.value| == |IntToString(number.value)| + |SuffixString(suffix)|
    ensures number.Some? && suffix.Some? ==> r.value[|r.value| - 1] == suffix.value
  {
    if number.None? then None
    else Some(IntToString(number.value) + SuffixString(suffix))
  }

  /** `mergeHouseNumber`: null unless the entity, its address and the stored number are all present. */
  function MergeHouseNumber(source: PosEntity?): (r: Option<string>)
    reads source, if source != null then {source.address} else {}
    ensures r.None? <==> source == null || source.address == null || source.address.houseNumber.None?
    ensures r.Some? ==> r == Merge(source.address.houseNumber, source.address.houseNumberSuffix)
  {
    if source == null || source.address == null || source.address.houseNumber.None? then None
    else Merge(source.address.houseNumber, source.address.houseNumberSuffix)
  }

  // ---------------------------------------------------------------------
  // splitHouseNumber
  // ---------------------------------------------------------------------

  /**
   * The number `splitHouseNumber` stores: absent for a null or blank string, for a
   * string without digits and for digits beyond `Integer.MAX_VALUE`; otherwise the
   * value of all the digits of the string read in order.
   */
  function SplitNumber(hn: Option<string>): (r: Option<Int32>)
    ensures r.Some? <==>
      hn.Some? && !IsBlank(hn.value) && Digits(hn.value) != [] && Value(Digits(hn.value)) <= MaxInt32
    ensures r.Some? ==> r.value == Value(Digits(hn.value))
  {
    if hn.None? || IsBlank(hn.value) then None
    else ParseDigits(Digits(hn.value))
  }

  /**
   * The suffix `splitHouseNumber` stores: absent for a null or blank string and
   * for a string of digits only; otherwise the first non-digit of the string,
   * wherever it stands.
   */
  function SplitSuffix(hn: Option<string>): (r: Option<char>)
    ensures r.None? <==> hn.None? || IsBlank(hn.value) || AllDigits(hn.value)
    ensures r.Some? ==>
      (!IsDigit(r.value) && exists i :: 0 <= i < |hn.value| && hn.value[i] == r.value && AllDigits(hn.value[..i]))
  {
    if hn.None? || IsBlank(hn.value) then None
    else
      var rest := NonDigits(hn.value);
      FirstNonDigit(hn.value);
      if rest == [] then None else Some(rest[0])
  }

  /**
   * `splitHouseNumber`: a null entity is replaced by a new one, a null source
   * leaves the entity as it is; otherwise street, city and postal code are copied
   * and number and suffix are set from the house-number string, both cleared
   * when it is null or blank. Nothing but the given entity is written.
   */
  method SplitHouseNumber(source: Option<Pos>, addressEntity: AddressEntity?) returns (r: AddressEntity)
    modifies addressEntity
    ensures addressEntity != null ==> r == addressEntity
    ensures addressEntity == null ==> fresh(r)
    ensures source.None? && addressEntity != null ==> unchanged(addressEntity)
    ensures source.None? && addressEntity == null ==> r.IsEmpty()
    ensures source.Some? ==>
      r.street == source.value.street && r.city == source.value.city &&
      r.postalCode == source.value.postalCode
    ensures source.Some? ==>
      r.houseNumber == SplitNumber(source.value.houseNumber) &&
      r.houseNumberSuffix == SplitSuffix(source.value.houseNumber)
  {
    if addressEntity == null {
      r := new AddressEntity();
    } else {
      r := addressEntity;
    }
    if source.None? {
      return;
    }
    var pos := source.value;

    r.street := pos.street;
    r.city := pos.city;
    r.postalCode := pos.postalCode;

    var hn := pos.houseNumber;
    if hn.None? || IsBlank(hn.value) {
      r.houseNumber := None;
      r.houseNumberSuffix := None;
      return;
    }

    var numericPart := Digits(hn.value);
    var suffixPart := NonDigits(hn.value);

    if numericPart != [] {
      var parsed := ParseDigits(numericPart);
      if parsed.Some? {
        r.houseNumber := parsed;
      } else {
        r.houseNumber := None;
      }
    } else {
      r.houseNumber := None;
    }

    if suffixPart != [] {
      r.houseNumberSuffix := Some(suffixPart[0]);
    } else {
      r.houseNumberSuffix := None;
    }
  }

  // ---------------------------------------------------------------------
  // How split and merge relate
  // ---------------------------------------------------------------------

  /**
   * A stored non-negative number and a non-digit suffix (or none) survive being
   * merged into a string and split again.
   */
  lemma MergeThenSplit(number: Int32, suffix: Option<char>)
    requires number >= 0
    requires suffix.Some? ==> !IsDigit(suffix.value)
    ensures Merge(Some(number), suffix).Some?
    ensures SplitNumber(Merge(Some(number), suffix)) == Some(number)
    ensures SplitSuffix(Merge(Some(number), suffix)) == suffix
  {
    var d := Decimal(number);
    var s := d + SuffixString(suffix);
    assert Merge(Some(number), suffix) == Some(s);
    DigitsAppend(d, SuffixString(suffix));
    DigitsOfDigitString(d);
    assert Digits(SuffixString(suffix)) == [] && NonDigits(SuffixString(suffix)) == SuffixString(suffix);
    assert Digits(s) == d;
    ParseDecimal(number);
    assert !IsWhitespace(s[0]) && !IsBlank(s);
  }

  /**
   * The conditional round trip: a non-blank string that is the canonical
   * rendering of a number in `0..Integer.MAX_VALUE` followed by at most one
   * non-digit character comes back unchanged from split and merge.
   */
  lemma SplitThenMerge(n: nat, suffix: Option<char>)
    requires n <= MaxInt32
    requires suffix.Some? ==> !IsDigit(suffix.value)
    ensures var s := Decimal(n) + SuffixString(suffix);
      Merge(SplitNumber(Some(s)), SplitSuffix(Some(s))) == Some(s)
  {
    MergeThenSplit(n, suffix);
  }

  /**
   * The converse of `SplitThenMerge`: a string that comes back unchanged from split
   * and merge is the canonical rendering of a number in `0..Integer.MAX_VALUE`
   * followed by at most one non-digit. Every other string (a leading zero, a
   * non-digit before or among the digits, two non-digits, a sign) is changed.
   */
  lemma RoundTripOnlyCanonical(s: string)
    requires Merge(SplitNumber(Some(s)), SplitSuffix(Some(s))) == Some(s)
    ensures exists n: nat, suffix: Option<char> ::
      n <= MaxInt32 && (suffix.Some? ==> !IsDigit(suffix.value)) && s == Decimal(n) + SuffixString(suffix)
  {
  }

  lemma LeadingZeroSameNumber(ds: string, suffix: Option<char>)
    requires AllDigits(ds) && ds != [] && Value(ds) <= MaxInt32
    requires suffix.Some? ==> !IsDigit(suffix.value)
    ensures SplitNumber(Some("0" + ds + SuffixString(suffix))) == Some(Value(ds))
  {
    var s := "0" + ds + SuffixString(suffix);
    DigitsAppend("0" + ds, SuffixString(suffix));
    DigitsOfDigitString("0" + ds);
    assert Digits(SuffixString(suffix)) == [];
    assert Digits(s) == "0" + ds;
    LeadingZeroIgnored(ds);
    assert !IsBlank(s) by { assert !IsWhitespace(s[0]); }
  }

  /** A leading zero is lost: the digits are re-rendered canonically, so the string does not come back. */
  lemma LeadingZeroLost(ds: string, suffix: Option<char>)
    requires AllDigits(ds) && ds != [] && Value(ds) <= MaxInt32
    requires suffix.Some? ==> !IsDigit(suffix.value)
    ensures var s := "0" + ds + SuffixString(suffix);
      SplitNumber(Some(s)).Some? && Merge(SplitNumber(Some(s)), SplitSuffix(Some(s))) != Some(s)
  {
    var s := "0" + ds + SuffixString(suffix);
    var n := Value(ds);
    LeadingZeroSameNumber(ds, suffix);
    var x := SplitSuffix(Some(s));
    assert |SuffixString(x)| <= |SuffixString(suffix)| by {
      if suffix.None? {
        assert s == "0" + ds;
        assert AllDigits(s);
      }
    }
    var m := Merge(Some(n), x);
    assert m.value == Decimal(n) + SuffixString(x);
    DecimalNoLeadingZero(n);
  }

  /** A suffix that does not trail is moved behind the number: "a45" comes back as "45a". */
  lemma LeadingLetterMoved()
    ensures SplitNumber(Some("a45")) == Some(45)
    ensures SplitSuffix(Some("a45")) == Some('a')
    ensures Merge(SplitNumber(Some("a45")), SplitSuffix(Some("a45"))) == Some("45a")
  {
    assert Digits("a45") == "45";
    assert NonDigits("a45") == "a";
    assert Value("45") == 45 by { assert "45"[..1] == "4"; }
    assert Decimal(45) == "45" by { assert Decimal(4) == "4"; }
    assert IntToString(45) == "45";
    assert SuffixString(Some('a')) == "a";
    assert "45" + "a" == "45a";
  }

  /** Only the first non-digit is kept, wherever it stands: "a12b" splits into 12 and 'a'. */
  lemma FirstNonDigitWins()
    ensures SplitNumber(Some("a12b")) == Some(12)
    ensures SplitSuffix(Some("a12b")) == Some('a')
  {
    assert Digits("a12b") == "12";
    assert Value("12") == 12 by { assert "12"[..1] == "1"; }
  }

  /** A minus sign in front of digits is filtered out of the number and kept as the only non-digit. */
  lemma SignedDigits(d: string)
    requires AllDigits(d) && d != []
    ensures Digits("-" + d) == d
    ensures NonDigits("-" + d) == "-"
    ensures !IsBlank("-" + d)
  {
    DigitsAppend("-", d);
    DigitsOfDigitString(d);
    assert !IsWhitespace(("-" + d)[0]);
  }

  /** A negative stored number does not survive: its sign comes back as the suffix. */
  lemma NegativeNumberLost(number: Int32)
    requires MinInt32 < number < 0
    ensures SplitNumber(Merge(Some(number), None)) == Some(-number)
    ensures SplitSuffix(Merge(Some(number), None)) == Some('-')
  {
    var n: nat := -(number as int);
    var d := Decimal(n);
    var s := "-" + d;
    assert IntToString(number) == s;
    assert Merge(Some(number), None) == Some(s) by { assert s + [] == s; }
    SignedDigits(d);
    ParseDecimal(n);
    assert SplitNumber(Some(s)) == ParseDigits(d);
    assert SplitSuffix(Some(s)) == Some('-');
  }

  /**
   * At `Integer.MIN_VALUE` the loss is worse still: the magnitude 2147483648 does
   * not fit an `int`, so the number comes back null and only the '-' survives.
   */
  lemma MinValueLost()
    ensures SplitNumber(Merge(Some(MinInt32), None)) == None
    ensures SplitSuffix(Merge(Some(MinInt32), None)) == Some('-')
  {
    var n: nat := -MinInt32;
    var d := Decimal(n);
    var s := "-" + d;
    assert IntToString(MinInt32) == s;
    assert Merge(Some(MinInt32), None) == Some(s) by { assert s + [] == s; }
    SignedDigits(d);
    ValueOfDecimal(n);
    assert SplitNumber(Some(s)) == ParseDigits(d);
    assert SplitSuffix(Some(s)) == Some('-');
  }
}
