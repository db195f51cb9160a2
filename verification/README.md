# CampusCoffee OSM import and house-number mapping, modelled in Dafny

This project models two pieces of the CampusCoffee back end, which imports
point-of-sale (POS) locations from OpenStreetMap into a campus coffee directory.

- **`OsmDataService`** models `OsmDataServiceImpl.fetchNode`.
  - The HTTP lookup arrives as an `HttpOutcome`. It is a client error with its
    status, any other exception, or a body that may be null.
  - The XML parser is a function parameter, `parse: string -> XmlDocument`. It
    yields `Unparseable` or the document's `node` elements in document order,
    each with its `(k, v)` tags.
  - `FetchNode` is the imperative method. Its guards throw the not-found error.
    Seven locals are overwritten inside a `while` loop over the first node's
    tags. Its loop invariant ties those locals to `ReadTags`, a left fold of
    `ApplyTag` (the key switch) over the tags read so far.
  - `Fetch` states the whole method as a value. The lemmas about it cover these
    properties:
    - every failure is `NodeNotFound(nodeId)`;
    - the id in the result is the requested one;
    - only the first `node` element is read;
    - each field holds the value written by the last tag that writes it;
    - a value that fails to parse keeps the field's previous value;
    - tags with keys outside the switch change nothing.
- **`PosEntityMapper`** models the two hand-written default methods of the
  entity mapper.
  - `MergeHouseNumber` and `Merge` model `mergeHouseNumber`. They are pure and
    read the entity's address.
  - `SplitHouseNumber` models `splitHouseNumber`. It is a method that writes
    five fields of an `AddressEntity` object in place. It replaces a null entity
    by a new one and leaves the entity untouched for a null source.
  - The spec functions `SplitNumber` and `SplitSuffix` give the stored number
    and suffix:
    - the number is the value of all the digits of the string, in order;
    - the suffix is its first non-digit, wherever that character stands.
  - The lemmas prove exactly when the round trip holds, and the ways it breaks:
    - a string survives split and merge if and only if it is the canonical
      rendering of a number in `0..2^31-1` followed by at most one non-digit;
    - a leading zero is lost;
    - a non-digit before the digits moves behind the number (for example
      "a45" becomes "45a");
    - a negative number's sign comes back as the suffix.
- **`JavaText`** models the `java.lang` behaviour that both files rely on:
  - 32-bit `int`;
  - `Character.isWhitespace` and `String.isBlank`;
  - the regex digit filters;
  - `Integer.parseInt` on digit strings;
  - `String.valueOf(int)`;
  - `toUpperCase(Locale.ROOT)`, for ASCII letters only.

  It also holds the codec lemmas: parsing a rendering gives the number back, a
  rendering has no leading zeros, and a leading zero does not change the value.
- **`Nullable`** holds `Option`, which stands for a Java reference that may be
  null.

Two behaviours of the code are easy to miss:

- A postal code or enumeration value that fails to parse keeps the field's
  previous value (`OsmDataServiceImpl.java:99-102`, `109-119`), so an earlier
  good tag survives a later bad one. `TagWithoutEffect` states this.
- `nodeId` is passed through unchecked: the code never tests its sign, so the
  model takes any integer.

## Model

| member | source | states |
|---|---|---|
| `OsmDataService.FetchNode` | data/src/main/java/de/seuhd/campuscoffee/data/impl/OsmDataServiceImpl.java:35-143 | The step-by-step method (guards, then seven locals updated in a loop over the first node's tags) returns exactly `Fetch` of its inputs. |
| `OsmDataService.Fetch` | data/src/main/java/de/seuhd/campuscoffee/data/impl/OsmDataServiceImpl.java:38-142 | Every failure is `NodeNotFound(nodeId)`, with no other error kind. Any client error, including 404, and any other transport exception fail. A null or blank body fails. Otherwise the fetch succeeds exactly when the body parses and has at least one `node` element. A success carries the requested id, and its fields are the fold of the first node's tags over the all-null record. |
| `OsmDataService.ApplyTag` | data/src/main/java/de/seuhd/campuscoffee/data/impl/OsmDataServiceImpl.java:84-123 | One pass of the key switch never changes the node id. |
| `OsmDataService.TagWithoutEffect` | data/src/main/java/de/seuhd/campuscoffee/data/impl/OsmDataServiceImpl.java:98-123 | These tags leave the record unchanged: an unknown key, a postcode whose digits are empty or overflow, and an `amenity`/`shop` or `campus`/`seuhd:campus` value whose upper-case form names no constant. A failed parse therefore keeps the previous value. |
| `OsmDataService.ReadTags` | data/src/main/java/de/seuhd/campuscoffee/data/impl/OsmDataServiceImpl.java:83-124 | The fold over the tags in document order keeps the id it started from. |
| `OsmDataService.EnumValueOf` | data/src/main/java/de/seuhd/campuscoffee/data/impl/OsmDataServiceImpl.java:109-119 | `valueOf(v.toUpperCase(Locale.ROOT))` succeeds exactly when the upper-cased value is a constant name. It then yields that very name, which has no lower-case letters. |
| `OsmDataService.CafeIsRecognised` | data/src/main/java/de/seuhd/campuscoffee/data/impl/OsmDataServiceImpl.java:107-113 | The lookup ignores case: `cafe` names `CAFE` and `Bakery` names `BAKERY`, while a value naming no constant is rejected. |
| `OsmDataService.PostcodeValue` | data/src/main/java/de/seuhd/campuscoffee/data/impl/OsmDataServiceImpl.java:98-103 | An `addr:postcode` value yields a code exactly when its digits are non-empty and at most 2^31-1, and the code is the value of those digits in order. |
| `OsmDataService.Blank` | data/src/main/java/de/seuhd/campuscoffee/data/impl/OsmDataServiceImpl.java:75-81 | Before any tag is read, the record carries the requested id and all seven fields are null. |
| `OsmDataService.OnlyFirstNodeRead` | data/src/main/java/de/seuhd/campuscoffee/data/impl/OsmDataServiceImpl.java:66-73 | Node elements after the first never change the result. With a non-blank body the result is the fold over the first node's tags. |
| `OsmDataService.LastWriteWins` | data/src/main/java/de/seuhd/campuscoffee/data/impl/OsmDataServiceImpl.java:83-124 | Take a field that each tag either overwrites or leaves alone. After the fold it holds the value of the last tag that writes it, and it is absent exactly when no tag writes it. |
| `OsmDataService.TextFieldsFromLastTag` | data/src/main/java/de/seuhd/campuscoffee/data/impl/OsmDataServiceImpl.java:89-106 | `name`, `street`, `houseNumber` and `city` each equal, verbatim, the `v` of the last tag with their key, and are absent when no such tag exists. The house number is stored unparsed. |
| `OsmDataService.PostalCodeFromLastParsableTag` | data/src/main/java/de/seuhd/campuscoffee/data/impl/OsmDataServiceImpl.java:98-103 | The postal code is the parsed digits of the last `addr:postcode` tag whose digits parse. Tags whose digits are empty or exceed 2^31-1 are skipped. |
| `OsmDataService.PosTypeFromLastRecognisedTag` | data/src/main/java/de/seuhd/campuscoffee/data/impl/OsmDataServiceImpl.java:107-113 | The POS type is the last value, over both `amenity` and `shop` tags, whose upper-case form names a constant; tags naming none are skipped, and it is absent when no tag is recognised. |
| `OsmDataService.CampusFromLastRecognisedTag` | data/src/main/java/de/seuhd/campuscoffee/data/impl/OsmDataServiceImpl.java:114-120 | The campus is the last value, over both `campus` and `seuhd:campus` tags, whose upper-case form names a constant; tags naming none are skipped, and it is absent when no tag is recognised. |
| `OsmDataService.SynonymKeys` | data/src/main/java/de/seuhd/campuscoffee/data/impl/OsmDataServiceImpl.java:107-120 | `amenity` and `shop` have the same effect, as do `campus` and `seuhd:campus`. For both enumerations, upper-casing the value first changes nothing. |
| `OsmDataService.UnknownTailIgnored` | data/src/main/java/de/seuhd/campuscoffee/data/impl/OsmDataServiceImpl.java:121-123 | Reading only tags with unknown keys leaves the record as it started. |
| `OsmDataService.UnknownTagsWithin` | data/src/main/java/de/seuhd/campuscoffee/data/impl/OsmDataServiceImpl.java:121-123 | Appending tags with unknown keys leaves the result unchanged. |
| `OsmDataService.UnknownTagsIgnored` | data/src/main/java/de/seuhd/campuscoffee/data/impl/OsmDataServiceImpl.java:121-123 | Tags with unknown keys can be removed from anywhere in the tag list without changing the result. |
| `OsmDataService.PrefixedPostcode` | data/src/main/java/de/seuhd/campuscoffee/data/impl/OsmDataServiceImpl.java:98-103 | Non-digits are stripped before parsing: "DE-69120" yields 69120. |
| `PosEntityMapper.AddressEntity.constructor` | data/src/main/java/de/seuhd/campuscoffee/data/mapper/PosEntityMapper.java:48-50 | A new address entity has every field null. |
| `PosEntityMapper.SuffixString` | data/src/main/java/de/seuhd/campuscoffee/data/mapper/PosEntityMapper.java:39-42 | Appending a present suffix adds exactly that one character. A null suffix adds nothing. |
| `PosEntityMapper.Merge` | data/src/main/java/de/seuhd/campuscoffee/data/mapper/PosEntityMapper.java:37-43 | With no number the result is null, whatever the suffix. Otherwise the result starts with `String.valueOf(number)`. It is one character longer exactly when a suffix is present, and then ends with that suffix. |
| `PosEntityMapper.MergeHouseNumber` | data/src/main/java/de/seuhd/campuscoffee/data/mapper/PosEntityMapper.java:33-44 | The result is null exactly when the entity, its address or the stored number is null. Otherwise it is the merge of the stored number and suffix. |
| `PosEntityMapper.SplitNumber` | data/src/main/java/de/seuhd/campuscoffee/data/mapper/PosEntityMapper.java:59-79 | A number is stored exactly when the string is non-blank and its digits are non-empty and at most 2^31-1, and it equals the value of those digits in order. Blank strings, strings without digits and overflowing digits give null, not zero. |
| `PosEntityMapper.SplitSuffix` | data/src/main/java/de/seuhd/campuscoffee/data/mapper/PosEntityMapper.java:59-85 | The suffix is absent exactly when the string is null, blank or all digits. Otherwise it is a non-digit with only digits before it: the first non-digit anywhere in the string. |
| `PosEntityMapper.SplitHouseNumber` | data/src/main/java/de/seuhd/campuscoffee/data/mapper/PosEntityMapper.java:47-88 | A null entity is replaced by a fresh one, and a given entity is returned. A null source leaves the entity untouched. Otherwise street, city and postal code are copied, and number and suffix are `SplitNumber` and `SplitSuffix` of the house number, so both are cleared when it is null or blank. Only that one entity is written. |
| `PosEntityMapper.MergeThenSplit` | data/src/main/java/de/seuhd/campuscoffee/data/mapper/PosEntityMapper.java:37-85 | A non-negative stored number and a non-digit suffix (or none), merged and then split, come back unchanged. |
| `PosEntityMapper.SplitThenMerge` | data/src/main/java/de/seuhd/campuscoffee/data/mapper/PosEntityMapper.java:37-85 | Take a string made of the canonical rendering of some 0 <= n <= 2^31-1, followed by at most one non-digit. Splitting and then merging it gives it back. |
| `PosEntityMapper.RoundTripOnlyCanonical` | data/src/main/java/de/seuhd/campuscoffee/data/mapper/PosEntityMapper.java:37-85 | Conversely, a string that survives split and merge is the canonical rendering of some 0 <= n <= 2^31-1, followed by at most one non-digit. With `SplitThenMerge`, the round trip holds exactly for these strings. |
| `PosEntityMapper.LeadingZeroSameNumber` | data/src/main/java/de/seuhd/campuscoffee/data/mapper/PosEntityMapper.java:68-79 | A leading zero in the house number does not change the stored number. |
| `PosEntityMapper.LeadingZeroLost` | data/src/main/java/de/seuhd/campuscoffee/data/mapper/PosEntityMapper.java:37-85 | A house number with a leading zero does not survive split and merge. |
| `PosEntityMapper.LeadingLetterMoved` | data/src/main/java/de/seuhd/campuscoffee/data/mapper/PosEntityMapper.java:37-85 | "a45" splits into 45 and 'a', and merges back as "45a". |
| `PosEntityMapper.FirstNonDigitWins` | data/src/main/java/de/seuhd/campuscoffee/data/mapper/PosEntityMapper.java:68-85 | "a12b" splits into 12 and 'a'. |
| `PosEntityMapper.SignedDigits` | data/src/main/java/de/seuhd/campuscoffee/data/mapper/PosEntityMapper.java:59-69 | A minus sign before digits is not blank, drops out of the numeric part and is the whole suffix part. |
| `PosEntityMapper.NegativeNumberLost` | data/src/main/java/de/seuhd/campuscoffee/data/mapper/PosEntityMapper.java:37-85 | A negative stored number is merged with its minus sign. Splitting that string gives the absolute value, with '-' as the suffix. |
| `PosEntityMapper.MinValueLost` | data/src/main/java/de/seuhd/campuscoffee/data/mapper/PosEntityMapper.java:37-85 | At `Integer.MIN_VALUE` the magnitude overflows, so split after merge gives a null number with suffix '-'. |
| `JavaText.Digits` | data/src/main/java/de/seuhd/campuscoffee/data/mapper/PosEntityMapper.java:68 | The digit filter keeps only digits and never lengthens the string. |
| `JavaText.NonDigits` | data/src/main/java/de/seuhd/campuscoffee/data/mapper/PosEntityMapper.java:69 | The non-digit filter keeps only non-digits and never lengthens the string. |
| `JavaText.ParseDigits` | data/src/main/java/de/seuhd/campuscoffee/data/impl/OsmDataServiceImpl.java:100 | `parseInt` of a digit string succeeds exactly when the string is non-empty and its value is at most 2^31-1, and it returns that value. |
| `JavaText.Decimal` | data/src/main/java/de/seuhd/campuscoffee/data/mapper/PosEntityMapper.java:38 | A rendering is a non-empty string of digits. |
| `JavaText.IntToString` | data/src/main/java/de/seuhd/campuscoffee/data/mapper/PosEntityMapper.java:38 | `String.valueOf(int)` is the canonical rendering of the number: the plain rendering, which `DecimalNoLeadingZero` shows has no leading zero, with a '-' in front exactly for a negative number. The digits read back as the magnitude. |
| `JavaText.NotBlankWithDigit` | data/src/main/java/de/seuhd/campuscoffee/data/mapper/PosEntityMapper.java:60-71 | A string containing a digit is never blank, so `isBlank` never clears a house number that has digits. |
| `JavaText.BlankExamples` | data/src/main/java/de/seuhd/campuscoffee/data/impl/OsmDataServiceImpl.java:55 | `isBlank` follows `Character.isWhitespace`. The empty string, tabs, line breaks and an em space are blank. A no-break space and a string with a digit are not. |
| `JavaText.ToUpperAscii` | data/src/main/java/de/seuhd/campuscoffee/data/impl/OsmDataServiceImpl.java:110 | Upper-casing maps each character on its own and keeps the length. |
| `JavaText.DigitsAppend` | data/src/main/java/de/seuhd/campuscoffee/data/mapper/PosEntityMapper.java:68-69 | Both filters distribute over concatenation. |
| `JavaText.DigitsOfDigitString` | data/src/main/java/de/seuhd/campuscoffee/data/mapper/PosEntityMapper.java:68-69 | A digit string is its own digit filter, and its non-digit filter is empty. |
| `JavaText.DigitsEmptyIff` | data/src/main/java/de/seuhd/campuscoffee/data/mapper/PosEntityMapper.java:68-71 | The digit filter is empty exactly when the string has no digit. |
| `JavaText.FirstNonDigit` | data/src/main/java/de/seuhd/campuscoffee/data/mapper/PosEntityMapper.java:69-85 | The first character kept by the non-digit filter is the first non-digit of the string. There is none exactly when the string is all digits. |
| `JavaText.ValueOfDecimal` | data/src/main/java/de/seuhd/campuscoffee/data/mapper/PosEntityMapper.java:38-73 | Reading a rendering back gives the number. |
| `JavaText.DecimalNoLeadingZero` | data/src/main/java/de/seuhd/campuscoffee/data/mapper/PosEntityMapper.java:38 | A rendering starts with '0' only for zero. |
| `JavaText.ParseDecimal` | data/src/main/java/de/seuhd/campuscoffee/data/mapper/PosEntityMapper.java:38-73 | `parseInt` accepts the rendering of every number from 0 to 2^31-1 and returns that number. |
| `JavaText.LeadingZeroIgnored` | data/src/main/java/de/seuhd/campuscoffee/data/mapper/PosEntityMapper.java:73 | A leading zero does not change the parsed value. |
| `JavaText.UpperIdempotent` | data/src/main/java/de/seuhd/campuscoffee/data/impl/OsmDataServiceImpl.java:110 | Upper-casing twice is the same as upper-casing once. |
| `JavaText.UpperKeepsUpper` | data/src/main/java/de/seuhd/campuscoffee/data/impl/OsmDataServiceImpl.java:117 | A value without lower-case ASCII letters is its own upper-case form. |

## Left out

- The HTTP call is not modelled, only its outcome (`HttpOutcome`). This covers
  `RestTemplate`, the URL template and the log calls (`OsmDataServiceImpl.java:30-53`).
  Timeouts and blocking are not modelled either.
- XML parsing and `normalize()` are a foreign library, so the parser is a
  parameter. The null check on `k`/`v` (line 87) is not modelled: tags arrive
  as present pairs, and `getAttribute` never returns null anyway.
- The constants of `PosType` and `CampusType` are not shown, so the model has
  no fixed list of them. Each enumeration is a set of names given in
  `EnumNames`.
- `toUpperCase(Locale.ROOT)` is modelled on ASCII letters only. Full Unicode
  case mapping is not modelled. For example, 'ß' becomes "SS" and the dotless
  'ı' becomes 'I'.
- Dafny's `char` is a Unicode scalar value, while Java's `char` is a UTF-16
  unit. So `charAt(0)` on a suffix outside the Basic Multilingual Plane, which
  yields half a surrogate pair in Java, is not modelled.
- `Integer.parseInt` is modelled only on strings of ASCII digits. Both call
  sites strip everything else first, so signs and non-ASCII digits never
  reach it.
- `nodeId` is a Java `Long`. It is modelled as an unbounded integer because it
  is only passed through.
- The MapStruct-generated `fromEntity`, `toEntity` and `updateEntity`
  (`PosEntityMapper.java:17-30`) are generated code, so they are not modelled.
- `Pos`, `PosEntity` and `AddressEntity` are reduced to the fields the two
  methods read and write. Their other fields, such as `id`, `createdAt`
  and `updatedAt` (`PosEntityMapper.java:26-28`), are left out. The type of `Pos.postalCode()`,
  which `setPostalCode` receives (`PosEntityMapper.java:57`), is not visible.
  It is taken to be `Integer`, as in `OsmNode.java:25`.
