/**
 * The OSM import service: `fetchNode` takes the outcome of the HTTP lookup of one
 * node, checks it, and folds the `tag` children of the first `node` element of the
 * parsed document into an `OsmNode`. Every failure collapses into the single
 * error `NodeNotFound(nodeId)`.
 */
module OsmDataService {
  import opened Nullable
  import opened JavaText

  /** A `PosType` or `CampusType` constant, named by its upper-case identifier. */
  datatype PosType = PosType(name: string)
  datatype CampusType = CampusType(name: string)

  /** The constant names of the two enumerations, which `valueOf` looks up. */
  datatype EnumNames = EnumNames(posTypes: set<string>, campusTypes: set<string>)

  /** The fetch result: the requested id and seven optional fields. */
  datatype OsmNode = OsmNode(
    nodeId: int,
    name: Option<string>,
    street: Option<string>,
    houseNumber: Option<string>,
    postalCode: Option<Int32>,
    city: Option<string>,
    posType: Option<PosType>,
    campus: Option<CampusType>)

  /** The only error `fetchNode` raises. */
  datatype FetchError = NodeNotFound(nodeId: int)

  datatype Result<+T, +E> = Success(value: T) | Failure(error: E)

  /** One `<tag k=".." v=".."/>` child of a node element. */
  datatype Tag = Tag(k: string, v: string)

  /** A `node` element, with its `tag` elements in document order. */
  datatype NodeElement = NodeElement(tags: seq<Tag>)

  /** What the XML parser makes of a body: an exception, or the `node` elements in document order. */
  datatype XmlDocument = Unparseable | Document(nodes: seq<NodeElement>)

  /**
   * What `getForObject` produced: an `HttpClientErrorException` with its status
   * (404 among them), any other exception, or a body that may be null.
   */
  datatype HttpOutcome = ClientError(status: int) | TransportFailure | Body(xml: Option<string>)

  const KnownKeys: set<string> :=
    {"name", "addr:street", "addr:housenumber", "addr:postcode", "addr:city",
     "amenity", "shop", "campus", "seuhd:campus"}

  /** `Enum.valueOf(v.toUpperCase(Locale.ROOT))`, with the IllegalArgumentException as `None`. */
  function EnumValueOf(names: set<string>, v: string): (r: Option<string>)
    ensures r.Some? <==> ToUpperAscii(v) in names
    ensures r.Some? ==> r.value == ToUpperAscii(v) && r.value in names
    ensures r.Some? ==> forall i :: 0 <= i < |r.value| ==> !('a' <= r.value[i] <= 'z')
  {
    var upper := ToUpperAscii(v);
    if upper in names then Some(upper) else None
  }

  /** The lookup is case-insensitive: `amenity=cafe` names the constant `CAFE`, an unknown value names none. */
  lemma CafeIsRecognised()
    ensures EnumValueOf({"CAFE", "BAKERY"}, "cafe") == Some("CAFE")
    ensures EnumValueOf({"CAFE", "BAKERY"}, "Bakery") == Some("BAKERY")
    ensures EnumValueOf({"CAFE", "BAKERY"}, "bar") == None
  {
    assert ToUpperAscii("cafe") == "CAFE";
    assert ToUpperAscii("Bakery") == "BAKERY";
    assert ToUpperAscii("bar") == "BAR";
  }

  /** The postal code an `addr:postcode` value yields: its digits, parsed; `None` when parsing fails. */
  function PostcodeValue(v: string): (r: Option<Int32>)
    ensures r.Some? <==> Digits(v) != [] && Value(Digits(v)) <= MaxInt32
    ensures r.Some? ==> r.value == Value(Digits(v))
  {
    ParseDigits(Digits(v))
  }

  /** The record before any tag is read: only the id is set. */
  function Blank(nodeId: int): (r: OsmNode)
    ensures r.nodeId == nodeId
    ensures r.name.None? && r.street.None? && r.houseNumber.None? && r.postalCode.None?
    ensures r.city.None? && r.posType.None? && r.campus.None?
  {
    OsmNode(nodeId, None, None, None, None, None, None, None)
  }

  /** One pass of the `switch (k)`: the fields after reading `tag`. */
  function ApplyTag(node: OsmNode, tag: Tag, enums: EnumNames): (r: OsmNode)
    ensures r.nodeId == node.nodeId
  {
    var k, v := tag.k, tag.v;
    if k == "name" then node.(name := Some(v))
    else if k == "addr:street" then node.(street := Some(v))
    else if k == "addr:housenumber" then node.(houseNumber := Some(v))
    else if k == "addr:postcode" then
      (match PostcodeValue(v)
       case Some(p) => node.(postalCode := Some(p))
       case None => node)
    else if k == "addr:city" then node.(city := Some(v))
    else if k == "amenity" || k == "shop" then
      (match EnumValueOf(enums.posTypes, v)
       case Some(t) => node.(posType := Some(PosType(t)))
       case None => node)
    else if k == "campus" || k == "seuhd:campus" then
      (match EnumValueOf(enums.campusTypes, v)
       case Some(c) => node.(campus := Some(CampusType(c)))
       case None => node)
    else node
  }

  /**
   * A tag leaves the record as it was when its key is not in the switch, or when
   * its value does not parse for the field it addresses: a failed parse keeps the
   * previous value rather than clearing it.
   */
  lemma TagWithoutEffect(node: OsmNode, tag: Tag, enums: EnumNames)
    ensures tag.k !in KnownKeys ==> ApplyTag(node, tag, enums) == node
    ensures tag.k == "addr:postcode" && PostcodeValue(tag.v).None? ==> ApplyTag(node, tag, enums) == node
    ensures (tag.k == "amenity" || tag.k == "shop") && EnumValueOf(enums.posTypes, tag.v).None? ==>
      ApplyTag(node, tag, enums) == node
    ensures (tag.k == "campus" || tag.k == "seuhd:campus") && EnumValueOf(enums.campusTypes, tag.v).None? ==>
      ApplyTag(node, tag, enums) == node
  {
  }

  /** The tag loop as a left fold: `start` updated by every tag in document order. */
  function ReadTags(start: OsmNode, tags: seq<Tag>, enums: EnumNames): (r: OsmNode)
    ensures r.nodeId == start.nodeId
    decreases |tags|
  {
    if tags == [] then start
    else ApplyTag(ReadTags(start, tags[..|tags| - 1], enums), tags[|tags| - 1], enums)
  }

  /** The whole of `fetchNode` as a value: the error paths, then the fold over the first node's tags. */
  function Fetch(nodeId: int, response: HttpOutcome, parse: string -> XmlDocument, enums: EnumNames)
    : (r: Result<OsmNode, FetchError>)
    ensures r.Failure? ==> r.error == NodeNotFound(nodeId)
    ensures r.Success? ==> r.value.nodeId == nodeId
    ensures !response.Body? ==> r.Failure?
    ensures response.Body? && (response.xml.None? || IsBlank(response.xml.value)) ==> r.Failure?
    ensures response.Body? && response.xml.Some? && !IsBlank(response.xml.value) ==>
      (r.Success? <==> parse(response.xml.value).Document? && |parse(response.xml.value).nodes| > 0)
    ensures r.Success? ==>
      response.Body? && response.xml.Some? && parse(response.xml.value).Document? &&
      |parse(response.xml.value).nodes| > 0 &&
      r.value == ReadTags(Blank(nodeId), parse(response.xml.value).nodes[0].tags, enums)
  {
    match response
    case ClientError(_) => Failure(NodeNotFound(nodeId))
    case TransportFailure => Failure(NodeNotFound(nodeId))
    case Body(xml) =>
      if xml.None? || IsBlank(xml.value) then Failure(NodeNotFound(nodeId))
      else
        match parse(xml.value)
        case Unparseable => Failure(NodeNotFound(nodeId))
        case Document(nodes) =>
          if |nodes| == 0 then Failure(NodeNotFound(nodeId))
          else Success(ReadTags(Blank(nodeId), nodes[0].tags, enums))
  }

  /**
   * `fetchNode`: the guards throw the not-found error, then seven locals are
   * overwritten tag by tag and the record is built from them.
   */
  method FetchNode(nodeId: int, response: HttpOutcome, parse: string -> XmlDocument, enums: EnumNames)
    returns (r: Result<OsmNode, FetchError>)
    ensures r == Fetch(nodeId, response, parse, enums)
  {
    var xml: Option<string>;
    match response {
      case ClientError(status) =>
        if status == 404 {
          return Failure(NodeNotFound(nodeId));
        }
        return Failure(NodeNotFound(nodeId));
      case TransportFailure =>
        return Failure(NodeNotFound(nodeId));
      case Body(body) =>
        xml := body;
    }
    if xml.None? || IsBlank(xml.value) {
      return Failure(NodeNotFound(nodeId));
    }
    var doc := parse(xml.value);
    if doc.Unparseable? {
      return Failure(NodeNotFound(nodeId));
    }
    if |doc.nodes| == 0 {
      return Failure(NodeNotFound(nodeId));
    }
    var tags := doc.nodes[0].tags;

    var name: Option<string> := None;
    var street: Option<string> := None;
    var houseNumber: Option<string> := None;
    var postalCode: Option<Int32> := None;
    var city: Option<string> := None;
    var posType: Option<PosType> := None;
    var campus: Option<CampusType> := None;

    var i := 0;
    while i < |tags|
      invariant 0 <= i <= |tags|
      invariant OsmNode(nodeId, name, street, houseNumber, postalCode, city, posType, campus)
             == ReadTags(Blank(nodeId), tags[..i], enums)
    {
      var k, v := tags[i].k, tags[i].v;
      if k == "name" {
        name := Some(v);
      } else if k == "addr:street" {
        street := Some(v);
      } else if k == "addr:housenumber" {
        houseNumber := Some(v);
      } else if k == "addr:postcode" {
        var parsed := ParseDigits(Digits(v));
        if parsed.Some? {
          postalCode := parsed;
        }
      } else if k == "addr:city" {
        city := Some(v);
      } else if k == "amenity" || k == "shop" {
        var t := EnumValueOf(enums.posTypes, v);
        if t.Some? {
          posType := Some(PosType(t.value));
        }
      } else if k == "campus" || k == "seuhd:campus" {
        var c := EnumValueOf(enums.campusTypes, v);
        if c.Some? {
          campus := Some(CampusType(c.value));
        }
      }
      assert tags[..i + 1][..i] == tags[..i];
      i := i + 1;
    }
    assert tags[..i] == tags;
    r := Success(OsmNode(nodeId, name, street, houseNumber, postalCode, city, posType, campus));
  }

  // ---------------------------------------------------------------------
  // Properties of the fetch
  // ---------------------------------------------------------------------

  /** Only the first `node` element is read: what follows it never changes the result. */
  lemma OnlyFirstNodeRead(nodeId: int, xml: string, first: NodeElement,
                          rest1: seq<NodeElement>, rest2: seq<NodeElement>, enums: EnumNames)
    ensures Fetch(nodeId, Body(Some(xml)), _ => Document([first] + rest1), enums)
         == Fetch(nodeId, Body(Some(xml)), _ => Document([first] + rest2), enums)
    ensures !IsBlank(xml) ==>
      Fetch(nodeId, Body(Some(xml)), _ => Document([first] + rest1), enums)
        == Success(ReadTags(Blank(nodeId), first.tags, enums))
  {
  }

  /**
   * `v` is the value the last tag for which `write` yields a value wrote: `field`
   * is that value, and is absent exactly when no tag writes it.
   */
  ghost predicate HoldsLastWrite<T>(tags: seq<Tag>, write: Tag -> Option<T>, field: Option<T>) {
    (field.None? <==> forall i :: 0 <= i < |tags| ==> write(tags[i]).None?) &&
    forall i :: (0 <= i < |tags| && write(tags[i]).Some? &&
                 forall j :: i < j < |tags| ==> write(tags[j]).None?) ==> field == write(tags[i])
  }

  /**
   * For a field that `ApplyTag` overwrites with `write(t)` when that is present and
   * otherwise leaves alone, the fold leaves in it the last value written.
   */
  lemma {:induction false} LastWriteWins<T>(nodeId: int, tags: seq<Tag>, enums: EnumNames,
                                             get: OsmNode -> Option<T>, write: Tag -> Option<T>)
    requires get(Blank(nodeId)).None?
    requires forall n: OsmNode, t: Tag ::
      get(ApplyTag(n, t, enums)) == (if write(t).Some? then write(t) else get(n))
    ensures HoldsLastWrite(tags, write, get(ReadTags(Blank(nodeId), tags, enums)))
    decreases |tags|
  {
    if tags != [] {
      var p := tags[..|tags| - 1];
      var last := tags[|tags| - 1];
      LastWriteWins(nodeId, p, enums, get, write);
      assert forall i :: 0 <= i < |p| ==> p[i] == tags[i];
      var field := get(ReadTags(Blank(nodeId), tags, enums));
      assert field == (if write(last).Some? then write(last) else get(ReadTags(Blank(nodeId), p, enums)));
    }
  }

  /** What the tag `t` writes into the string field keyed by `key`. */
  function TextWrite(key: string): Tag -> Option<string> {
    (t: Tag) => if t.k == key then Some(t.v) else None
  }

  /** What the tag `t` writes into the postal code. */
  function PostcodeWrite(): Tag -> Option<Int32> {
    (t: Tag) => if t.k == "addr:postcode" then PostcodeValue(t.v) else None
  }

  /** What the tag `t` writes into the POS type. */
  function PosTypeWrite(enums: EnumNames): Tag -> Option<PosType> {
    (t: Tag) => if t.k == "amenity" || t.k == "shop" then
           (match EnumValueOf(enums.posTypes, t.v) case Some(n) => Some(PosType(n)) case None => None)
         else None
  }

  /** What the tag `t` writes into the campus. */
  function CampusWrite(enums: EnumNames): Tag -> Option<CampusType> {
    (t: Tag) => if t.k == "campus" || t.k == "seuhd:campus" then
           (match EnumValueOf(enums.campusTypes, t.v) case Some(n) => Some(CampusType(n)) case None => None)
         else None
  }

  /**
   * `name`, `addr:street`, `addr:housenumber` and `addr:city` are copied verbatim
   * from the last tag with that key (the house number is not parsed), and are
   * absent when no tag has the key.
   */
  lemma {:induction false} TextFieldsFromLastTag(nodeId: int, tags: seq<Tag>, enums: EnumNames)
    ensures var node := ReadTags(Blank(nodeId), tags, enums);
      HoldsLastWrite(tags, TextWrite("name"), node.name) &&
      HoldsLastWrite(tags, TextWrite("addr:street"), node.street) &&
      HoldsLastWrite(tags, TextWrite("addr:housenumber"), node.houseNumber) &&
      HoldsLastWrite(tags, TextWrite("addr:city"), node.city)
  {
    LastWriteWins(nodeId, tags, enums, (n: OsmNode) => n.name, TextWrite("name"));
    LastWriteWins(nodeId, tags, enums, (n: OsmNode) => n.street, TextWrite("addr:street"));
    LastWriteWins(nodeId, tags, enums, (n: OsmNode) => n.houseNumber, TextWrite("addr:housenumber"));
    LastWriteWins(nodeId, tags, enums, (n: OsmNode) => n.city, TextWrite("addr:city"));
  }

  /**
   * The postal code is the parsed digits of the last `addr:postcode` tag whose
   * digits parse; tags whose digits are empty or overflow are skipped.
   */
  lemma {:induction false} PostalCodeFromLastParsableTag(nodeId: int, tags: seq<Tag>, enums: EnumNames)
    ensures HoldsLastWrite(tags, PostcodeWrite(), ReadTags(Blank(nodeId), tags, enums).postalCode)
  {
    LastWriteWins(nodeId, tags, enums, (n: OsmNode) => n.postalCode, PostcodeWrite());
  }

  /**
   * `amenity` and `shop` feed one field: the POS type is the last value, over both
   * keys, whose upper-case form names a `PosType` constant.
   */
  lemma {:induction false} PosTypeFromLastRecognisedTag(nodeId: int, tags: seq<Tag>, enums: EnumNames)
    ensures HoldsLastWrite(tags, PosTypeWrite(enums), ReadTags(Blank(nodeId), tags, enums).posType)
  {
    LastWriteWins(nodeId, tags, enums, (n: OsmNode) => n.posType, PosTypeWrite(enums));
  }

  /**
   * `campus` and `seuhd:campus` feed one field: the campus is the last value, over
   * both keys, whose upper-case form names a `CampusType` constant.
   */
  lemma {:induction false} CampusFromLastRecognisedTag(nodeId: int, tags: seq<Tag>, enums: EnumNames)
    ensures HoldsLastWrite(tags, CampusWrite(enums), ReadTags(Blank(nodeId), tags, enums).campus)
  {
    LastWriteWins(nodeId, tags, enums, (n: OsmNode) => n.campus, CampusWrite(enums));
  }

  /** The two keys of each pair are interchangeable, and the lookup ignores ASCII case. */
  lemma SynonymKeys(node: OsmNode, v: string, enums: EnumNames)
    ensures ApplyTag(node, Tag("amenity", v), enums) == ApplyTag(node, Tag("shop", v), enums)
    ensures ApplyTag(node, Tag("campus", v), enums) == ApplyTag(node, Tag("seuhd:campus", v), enums)
    ensures ApplyTag(node, Tag("amenity", v), enums) == ApplyTag(node, Tag("amenity", ToUpperAscii(v)), enums)
    ensures ApplyTag(node, Tag("campus", v), enums) == ApplyTag(node, Tag("campus", ToUpperAscii(v)), enums)
  {
    UpperIdempotent(v);
  }

  /** A run of tags whose keys are all outside the switch leaves the record as it was. */
  lemma {:induction false} UnknownTailIgnored(start: OsmNode, unknown: seq<Tag>, enums: EnumNames)
    requires forall i :: 0 <= i < |unknown| ==> unknown[i].k !in KnownKeys
    ensures ReadTags(start, unknown, enums) == start
    decreases |unknown|
  {
    if unknown != [] {
      UnknownTailIgnored(start, unknown[..|unknown| - 1], enums);
      TagWithoutEffect(start, unknown[|unknown| - 1], enums);
    }
  }

  /** Tags with keys outside the switch change nothing wherever they stand in the document. */
  lemma {:induction false} UnknownTagsIgnored(start: OsmNode, before: seq<Tag>, unknown: seq<Tag>,
                                              after: seq<Tag>, enums: EnumNames)
    requires forall i :: 0 <= i < |unknown| ==> unknown[i].k !in KnownKeys
    ensures ReadTags(start, before + unknown + after, enums) == ReadTags(start, before + after, enums)
    decreases |after|
  {
    if after == [] {
      assert before + unknown + after == before + unknown;
      assert before + after == before;
      UnknownTagsWithin(start, before, unknown, enums);
    } else {
      var p := after[..|after| - 1];
      UnknownTagsIgnored(start, before, unknown, p, enums);
      assert (before + unknown + after)[..|before + unknown + after| - 1] == before + unknown + p;
      assert (before + after)[..|before + after| - 1] == before + p;
    }
  }

  /** Tags with keys outside the switch, appended after the others, change nothing. */
  lemma {:induction false} UnknownTagsWithin(start: OsmNode, before: seq<Tag>, unknown: seq<Tag>,
                                             enums: EnumNames)
    requires forall i :: 0 <= i < |unknown| ==> unknown[i].k !in KnownKeys
    ensures ReadTags(start, before + unknown, enums) == ReadTags(start, before, enums)
    decreases |unknown|
  {
    if unknown == [] {
      assert before + unknown == before;
    } else {
      var p := unknown[..|unknown| - 1];
      assert (before + unknown)[..|before + unknown| - 1] == before + p;
      UnknownTagsWithin(start, before, p, enums);
      TagWithoutEffect(ReadTags(start, before, enums), unknown[|unknown| - 1], enums);
    }
  }

  /** A country prefix and a hyphen are stripped before parsing: "DE-69120" reads as 69120. */
  lemma PrefixedPostcode()
    ensures PostcodeValue("DE-69120") == Some(69120)
  {
    assert Digits("DE-69120") == "69120";
    assert Value("6") == 6 by { assert "6"[..0] == ""; }
    assert Value("69") == 69 by { assert "69"[..1] == "6"; }
    assert Value("691") == 691 by { assert "691"[..2] == "69"; }
    assert Value("6912") == 6912 by { assert "6912"[..3] == "691"; }
    assert Value("69120") == 69120 by { assert "69120"[..4] == "6912"; }
  }
}
