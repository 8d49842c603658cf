/**
 * The request side of network/ApiClient.kt: building the URL of one page of
 * the character list (`fetchPage`) and walking every page of a filter
 * (`fetchAllCharacters`). The Ktor client and its JSON decoding are a total
 * function from the URL to either the decoded response or the exception
 * thrown while getting or decoding it.
 */
module ApiClient {
  import opened Wrappers
  import opened Text
  import opened Model

  /** `client.get(url).body()`: the decoded page, or the exception it throws. */
  type Http = string -> Result<CharacterResponse>

  /** The endpoint every request goes to. */
  const Base: string := "https://rickandmortyapi.com/api/character"

  /** The optional filter arguments of `fetchPage`; `None` is a null argument. */
  datatype Filters = Filters(
    name: Option<string> := None,
    status: Option<string> := None,
    species: Option<string> := None,
    kind: Option<string> := None,
    gender: Option<string> := None)

  function LowercaseOption(o: Option<string>): Option<string> {
    match o
    case None => None
    case Some(s) => Some(Lowercase(s))
  }

  /**
   * The filters as sent: key and value of each filter in the order the query
   * lists them, with `status` and `gender` lower-cased and the others verbatim.
   */
  function QueryFields(f: Filters): seq<(string, Option<string>)> {
    [ ("name", f.name),
      ("status", LowercaseOption(f.status)),
      ("species", f.species),
      ("type", f.kind),
      ("gender", LowercaseOption(f.gender)) ]
  }

  /** `listOfNotNull` over the `key=value` segments: a null filter contributes nothing. */
  function PresentSegments(fields: seq<(string, Option<string>)>): seq<string> {
    if fields == [] then []
    else
      match fields[0].1
      case None => PresentSegments(fields[1..])
      case Some(v) => [fields[0].0 + "=" + v] + PresentSegments(fields[1..])
  }

  /** The query segments of a request: `page=<page>` first, then one per non-null filter. */
  function Segments(page: int, f: Filters): seq<string> {
    ["page=" + IntToDecimal(page)] + PresentSegments(QueryFields(f))
  }

  /** The query string: the segments joined by `&`. */
  function Params(page: int, f: Filters): string {
    Join(Segments(page, f), '&')
  }

  /** The URL `fetchPage` requests. */
  function Url(page: int, f: Filters): string {
    Base + "?" + Params(page, f)
  }

  /** `fetchPage`: one request for one page. */
  function FetchPage(get: Http, page: int, f: Filters): Result<CharacterResponse> {
    get(Url(page, f))
  }

  // ---------------------------------------------------------------------------
  // What the query says
  // ---------------------------------------------------------------------------

  /** The number of non-null filters. */
  function NonNullCount(f: Filters): nat {
    (if f.name.Some? then 1 else 0) + (if f.status.Some? then 1 else 0)
    + (if f.species.Some? then 1 else 0) + (if f.kind.Some? then 1 else 0)
    + (if f.gender.Some? then 1 else 0)
  }

  function OptionOccurrences(o: Option<string>, c: char): nat {
    match o
    case None => 0
    case Some(s) => multiset(s)[c]
  }

  /** The number of `&` characters inside the non-null filter values. */
  function ValueAmpersands(f: Filters): nat {
    OptionOccurrences(f.name, '&') + OptionOccurrences(f.status, '&')
    + OptionOccurrences(f.species, '&') + OptionOccurrences(f.kind, '&')
    + OptionOccurrences(f.gender, '&')
  }

  /** No filter value contains `&`, the only case in which each filter stays one segment. */
  predicate NoAmpersandInValues(f: Filters) {
    ValueAmpersands(f) == 0
  }

  lemma {:induction false} PresentSegmentsCount(fields: seq<(string, Option<string>)>, c: char)
    requires c != '='
    requires forall i :: 0 <= i < |fields| ==> c !in fields[i].0
    ensures SumOccurrences(PresentSegments(fields), c)
         == SumValueOccurrences(fields, c)
  {
    if fields != [] {
      PresentSegmentsCount(fields[1..], c);
      match fields[0].1
      case None =>
      case Some(v) =>
        var k := fields[0].0;
        assert multiset(k + "=" + v)[c] == multiset(k)[c] + multiset("=")[c] + multiset(v)[c];
    }
  }

  function SumValueOccurrences(fields: seq<(string, Option<string>)>, c: char): nat {
    if fields == [] then 0 else OptionOccurrences(fields[0].1, c) + SumValueOccurrences(fields[1..], c)
  }

  function PresentCount(fields: seq<(string, Option<string>)>): nat {
    if fields == [] then 0 else (if fields[0].1.Some? then 1 else 0) + PresentCount(fields[1..])
  }

  lemma {:induction false} PresentSegmentsLength(fields: seq<(string, Option<string>)>)
    ensures |PresentSegments(fields)| == PresentCount(fields)
  {
    if fields != [] {
      PresentSegmentsLength(fields[1..]);
    }
  }

  lemma LowercaseOptionOccurrences(o: Option<string>)
    ensures OptionOccurrences(LowercaseOption(o), '&') == OptionOccurrences(o, '&')
  {
    if o.Some? {
      LowercaseKeepsCount(o.value, '&');
    }
  }

  /** No key of the query contains the separators `&` and `=`. */
  lemma QueryKeysPlain(f: Filters)
    ensures forall i :: 0 <= i < |QueryFields(f)| ==> '&' !in QueryFields(f)[i].0 && '=' !in QueryFields(f)[i].0
  {
    var fields := QueryFields(f);
    assert fields[0].0 == "name" && fields[1].0 == "status" && fields[2].0 == "species";
    assert fields[3].0 == "type" && fields[4].0 == "gender";
  }

  /** The five filter fields, unrolled: how many are present. */
  lemma QueryFieldsPresent(f: Filters)
    ensures PresentCount(QueryFields(f)) == NonNullCount(f)
  {
    var fields := QueryFields(f);
    forall k | 0 <= k < 5
      ensures fields[k..][1..] == fields[k + 1..]
    {
    }
    assert fields[5..] == [];
    assert PresentCount(fields[4..]) == (if f.gender.Some? then 1 else 0);
    assert PresentCount(fields[3..]) == (if f.kind.Some? then 1 else 0) + PresentCount(fields[4..]);
    assert PresentCount(fields[2..]) == (if f.species.Some? then 1 else 0) + PresentCount(fields[3..]);
    assert PresentCount(fields[1..]) == (if f.status.Some? then 1 else 0) + PresentCount(fields[2..]);
  }

  /** The five filter fields, unrolled: how many `&` their values hold. */
  lemma QueryValuesAmpersands(f: Filters)
    ensures SumValueOccurrences(QueryFields(f), '&') == ValueAmpersands(f)
  {
    var fields := QueryFields(f);
    LowercaseOptionOccurrences(f.status);
    LowercaseOptionOccurrences(f.gender);
    forall k | 0 <= k < 5
      ensures fields[k..][1..] == fields[k + 1..]
    {
    }
    assert fields[5..] == [];
    assert SumValueOccurrences(fields[4..], '&') == OptionOccurrences(f.gender, '&');
    assert SumValueOccurrences(fields[3..], '&') == OptionOccurrences(f.kind, '&') + SumValueOccurrences(fields[4..], '&');
    assert SumValueOccurrences(fields[2..], '&') == OptionOccurrences(f.species, '&') + SumValueOccurrences(fields[3..], '&');
    assert SumValueOccurrences(fields[1..], '&') == OptionOccurrences(f.status, '&') + SumValueOccurrences(fields[2..], '&');
  }

  /**
   * The query holds one `&` per non-null filter, plus every `&` that a filter
   * value itself carries: values are inserted without escaping.
   */
  lemma AmpersandCount(page: int, f: Filters)
    ensures multiset(Params(page, f))['&'] == NonNullCount(f) + ValueAmpersands(f)
  {
    var fields := QueryFields(f);
    SegmentsOccurrences(page, fields, '&');
    PresentSegmentsLength(fields);
    QueryKeysPlain(f);
    PresentSegmentsCount(fields, '&');
    QueryFieldsPresent(f);
    QueryValuesAmpersands(f);
  }

  /** The separator count of a query, whatever its filter fields. */
  lemma SegmentsOccurrences(page: int, fields: seq<(string, Option<string>)>, c: char)
    requires c == '&'
    ensures var segs := ["page=" + IntToDecimal(page)] + PresentSegments(fields);
      multiset(Join(segs, c))[c] == |PresentSegments(fields)| + SumOccurrences(PresentSegments(fields), c)
  {
    var segs := ["page=" + IntToDecimal(page)] + PresentSegments(fields);
    JoinOccurrences(segs, c);
    PageSegmentHasNoAmpersand(page);
    assert segs[1..] == PresentSegments(fields);
  }

  lemma PageSegmentHasNoAmpersand(page: int)
    ensures multiset("page=" + IntToDecimal(page))['&'] == 0
    ensures '&' !in "page=" + IntToDecimal(page)
  {
    var seg := "page=" + IntToDecimal(page);
    assert forall i :: 0 <= i < |seg| ==> seg[i] != '&';
    assert '&' !in seg;
  }

  /** Without `&` in the values, the `&` count of the query is the number of non-null filters. */
  lemma AmpersandCountPlain(page: int, f: Filters)
    requires NoAmpersandInValues(f)
    ensures multiset(Params(page, f))['&'] == NonNullCount(f)
  {
    AmpersandCount(page, f);
  }

  /** The query begins with `page=<page>` and the URL is the base, `?`, then the query. */
  lemma {:induction false} QueryStartsWithPage(page: int, f: Filters)
    ensures var head := "page=" + IntToDecimal(page);
      && |head| <= |Params(page, f)|
      && Params(page, f)[..|head|] == head
      && Url(page, f) == Base + "?" + Params(page, f)
  {
    var segs := Segments(page, f);
    if |segs| > 1 {
      assert Params(page, f) == segs[0] + (['&'] + Join(segs[1..], '&'));
    }
  }

  // ---------------------------------------------------------------------------
  // Reading a query back
  // ---------------------------------------------------------------------------

  /** The filters as the server receives them: `status` and `gender` lower-cased. */
  function Sent(f: Filters): Filters {
    f.(status := LowercaseOption(f.status), gender := LowercaseOption(f.gender))
  }

  /** A segment cut at its first `=` into key and value. */
  function KeyValues(segments: seq<string>): (pairs: seq<(string, string)>)
    ensures |pairs| == |segments|
  {
    if segments == [] then [] else [SplitAtFirst(segments[0], '=')] + KeyValues(segments[1..])
  }

  /** The value of the first pair with the given key. */
  function Lookup(pairs: seq<(string, string)>, key: string): Option<string> {
    if pairs == [] then None
    else if pairs[0].0 == key then Some(pairs[0].1)
    else Lookup(pairs[1..], key)
  }

  /**
   * Reads a query string: the first segment must be `page` with an integer
   * value; each filter is the value of the first segment with its key.
   */
  function DecodeQuery(query: string): Option<(int, Filters)> {
    var pairs := KeyValues(Split(query, '&'));
    if pairs[0].0 != "page" then None
    else
      match ParseInt(pairs[0].1)
      case None => None
      case Some(page) =>
        Some((page, Filters(Lookup(pairs, "name"), Lookup(pairs, "status"), Lookup(pairs, "species"),
                            Lookup(pairs, "type"), Lookup(pairs, "gender"))))
  }

  /** The `(key, value)` pairs of the non-null fields, in field order. */
  function PresentPairs(fields: seq<(string, Option<string>)>): seq<(string, string)> {
    if fields == [] then []
    else
      match fields[0].1
      case None => PresentPairs(fields[1..])
      case Some(v) => [(fields[0].0, v)] + PresentPairs(fields[1..])
  }

  predicate DistinctKeys(fields: seq<(string, Option<string>)>) {
    forall a, b :: 0 <= a < b < |fields| ==> fields[a].0 != fields[b].0
  }

  lemma {:induction false} KeyValuesPresent(fields: seq<(string, Option<string>)>)
    requires forall i :: 0 <= i < |fields| ==> '=' !in fields[i].0
    ensures KeyValues(PresentSegments(fields)) == PresentPairs(fields)
  {
    if fields != [] {
      KeyValuesPresent(fields[1..]);
      match fields[0].1
      case None =>
      case Some(v) =>
        var k := fields[0].0;
        SplitAtFirstJoin(k, '=', v);
        assert k + "=" + v == k + ['='] + v;
        var segs := PresentSegments(fields);
        assert segs[1..] == PresentSegments(fields[1..]);
    }
  }

  lemma {:induction false} LookupAbsent(fields: seq<(string, Option<string>)>, key: string)
    requires forall i :: 0 <= i < |fields| ==> fields[i].0 != key
    ensures Lookup(PresentPairs(fields), key) == None
  {
    if fields != [] {
      LookupAbsent(fields[1..], key);
    }
  }

  /** With distinct keys, looking a key up among the present pairs gives that field's value. */
  lemma {:induction false} LookupPresent(fields: seq<(string, Option<string>)>, i: nat)
    requires DistinctKeys(fields)
    requires i < |fields|
    ensures Lookup(PresentPairs(fields), fields[i].0) == fields[i].1
  {
    if i == 0 {
      if fields[0].1.None? {
        LookupAbsent(fields[1..], fields[0].0);
      }
    } else {
      LookupPresent(fields[1..], i - 1);
      assert fields[1..][i - 1] == fields[i];
    }
  }

  lemma {:induction false} PresentSegmentsAvoid(fields: seq<(string, Option<string>)>, c: char)
    requires c != '='
    requires forall i :: 0 <= i < |fields| ==> c !in fields[i].0
    requires forall i :: 0 <= i < |fields| ==> fields[i].1.Some? ==> c !in fields[i].1.value
    ensures forall j :: 0 <= j < |PresentSegments(fields)| ==> c !in PresentSegments(fields)[j]
  {
    if fields != [] {
      PresentSegmentsAvoid(fields[1..], c);
    }
  }

  lemma QueryKeysDistinct(f: Filters)
    ensures DistinctKeys(QueryFields(f))
  {
    var fields := QueryFields(f);
    assert fields[0].0 == "name" && fields[1].0 == "status" && fields[2].0 == "species";
    assert fields[3].0 == "type" && fields[4].0 == "gender";
  }

  lemma NoAmpersandOption(o: Option<string>)
    requires OptionOccurrences(o, '&') == 0
    ensures o.Some? ==> '&' !in o.value
    ensures LowercaseOption(o).Some? ==> '&' !in LowercaseOption(o).value
  {
    if o.Some? {
      LowercaseKeepsCount(o.value, '&');
    }
  }

  /** With no `&` inside the values, the values of the query fields avoid `&`. */
  lemma QueryValuesPlain(f: Filters)
    requires NoAmpersandInValues(f)
    ensures forall i :: 0 <= i < |QueryFields(f)| ==> QueryFields(f)[i].1.Some? ==> '&' !in QueryFields(f)[i].1.value
  {
    NoAmpersandOption(f.name);
    NoAmpersandOption(f.status);
    NoAmpersandOption(f.species);
    NoAmpersandOption(f.kind);
    NoAmpersandOption(f.gender);
  }

  /** The key/value pairs read back from a query whose keys and values avoid `&`. */
  lemma SegmentPairs(key: string, value: string, fields: seq<(string, Option<string>)>)
    requires '&' !in key && '=' !in key && '&' !in value
    requires forall i :: 0 <= i < |fields| ==> '&' !in fields[i].0 && '=' !in fields[i].0
    requires forall i :: 0 <= i < |fields| ==> fields[i].1.Some? ==> '&' !in fields[i].1.value
    ensures var segs := [key + ['='] + value] + PresentSegments(fields);
      KeyValues(Split(Join(segs, '&'), '&')) == [(key, value)] + PresentPairs(fields)
  {
    var head := key + ['='] + value;
    var rest := PresentSegments(fields);
    PresentSegmentsAvoid(fields, '&');
    SegmentsSplit(head, rest);
    SegmentsKeyValues(key, value, fields);
  }

  lemma SegmentsSplit(head: string, rest: seq<string>)
    requires '&' !in head
    requires forall j :: 0 <= j < |rest| ==> '&' !in rest[j]
    ensures var segs := [head] + rest; Split(Join(segs, '&'), '&') == segs
  {
    var segs := [head] + rest;
    assert forall j :: 1 <= j < |segs| ==> segs[j] == rest[j - 1];
    SplitJoin(segs, '&');
  }

  lemma SegmentsKeyValues(key: string, value: string, fields: seq<(string, Option<string>)>)
    requires '=' !in key
    requires forall i :: 0 <= i < |fields| ==> '=' !in fields[i].0
    ensures var segs := [key + ['='] + value] + PresentSegments(fields);
      KeyValues(segs) == [(key, value)] + PresentPairs(fields)
  {
    var segs := [key + ['='] + value] + PresentSegments(fields);
    KeyValuesPresent(fields);
    SplitAtFirstJoin(key, '=', value);
    assert segs[1..] == PresentSegments(fields);
  }

  /** The key/value pairs a server reads from the query, when no value contains `&`. */
  lemma QueryPairs(page: int, f: Filters)
    requires NoAmpersandInValues(f)
    ensures KeyValues(Split(Params(page, f), '&'))
         == [("page", IntToDecimal(page))] + PresentPairs(QueryFields(f))
  {
    var fields := QueryFields(f);
    var digits := IntToDecimal(page);
    PageSegmentHasNoAmpersand(page);
    assert "page=" + digits == "page" + ['='] + digits;
    assert Params(page, f) == Join(["page" + ['='] + digits] + PresentSegments(fields), '&');
    QueryKeysPlain(f);
    QueryValuesPlain(f);
    SegmentPairs("page", digits, fields);
  }

  /**
   * Decoding the query of a request gives back its page and its filters as
   * sent (every null filter absent, every other one present, `status` and
   * `gender` lower-cased, the rest verbatim), provided no value contains `&`.
   */
  lemma QueryRoundTrip(page: int, f: Filters)
    requires NoAmpersandInValues(f)
    ensures DecodeQuery(Params(page, f)) == Some((page, Sent(f)))
  {
    var fields := QueryFields(f);
    var pairs := [("page", IntToDecimal(page))] + PresentPairs(fields);
    QueryPairs(page, f);
    IntDecimalRoundTrip(page);
    QueryKeysDistinct(f);
    forall i | 0 <= i < 5
      ensures Lookup(pairs, fields[i].0) == fields[i].1
    {
      LookupPresent(fields, i);
      assert fields[i].0 != "page";
    }
    assert Lookup(pairs, "name") == f.name by { assert fields[0] == ("name", f.name); }
    assert Lookup(pairs, "status") == LowercaseOption(f.status) by { assert fields[1].0 == "status"; }
    assert Lookup(pairs, "species") == f.species by { assert fields[2].0 == "species"; }
    assert Lookup(pairs, "type") == f.kind by { assert fields[3].0 == "type"; }
    assert Lookup(pairs, "gender") == LowercaseOption(f.gender) by { assert fields[4].0 == "gender"; }
  }

  /** The rank of a query key in the fixed order page, name, status, species, type, gender. */
  function KeyRank(key: string): nat {
    if key == "page" then 0
    else if key == "name" then 1
    else if key == "status" then 2
    else if key == "species" then 3
    else if key == "type" then 4
    else if key == "gender" then 5
    else 6
  }

  lemma {:induction false} PresentPairsOrdered(fields: seq<(string, Option<string>)>, low: int)
    requires forall i :: 0 <= i < |fields| ==> low < KeyRank(fields[i].0)
    requires forall i, j :: 0 <= i < j < |fields| ==> KeyRank(fields[i].0) < KeyRank(fields[j].0)
    ensures forall i :: 0 <= i < |PresentPairs(fields)| ==> low < KeyRank(PresentPairs(fields)[i].0)
    ensures forall i, j :: 0 <= i < j < |PresentPairs(fields)| ==>
      KeyRank(PresentPairs(fields)[i].0) < KeyRank(PresentPairs(fields)[j].0)
  {
    if fields != [] {
      PresentPairsOrdered(fields[1..], KeyRank(fields[0].0));
      PresentPairsOrdered(fields[1..], low);
    }
  }

  /** Each pair is its segment cut at the first `=`. */
  lemma {:induction false} KeyValuesAt(segments: seq<string>, i: nat)
    requires i < |segments|
    ensures KeyValues(segments)[i] == SplitAtFirst(segments[i], '=')
  {
    if i > 0 {
      KeyValuesAt(segments[1..], i - 1);
    }
  }

  /**
   * With `head` and `key` free of `&`, the query splits into `head` first and
   * then `key` followed by `value` up to its first `&`.
   */
  lemma SecondSegmentCut(head: string, key: string, value: string, rest: seq<string>)
    requires '&' !in head && '&' !in key
    ensures var pieces := Split(Join([head, key + value] + rest, '&'), '&');
      |pieces| >= 2 && pieces[0] == head && pieces[1] == key + SplitAtFirst(value, '&').0
  {
    var segs := [head, key + value] + rest;
    var tail := Join(segs[1..], '&');
    assert Join(segs, '&') == head + ['&'] + tail;
    assert segs[1..][0] == key + value;
    SplitAfterPiece(head, '&', tail);
    SplitFirstPiece(tail, '&');
    JoinFirstPiece(segs[1..], '&');
    SplitAtFirstPrefix(key, value, '&');
  }

  /** The pairs of a query whose first two segments are `page=<digits>` and `name=<name>`. */
  lemma NamePairs(digits: string, name: string, rest: seq<string>)
    requires '&' !in digits
    ensures var pairs := KeyValues(Split(Join(["page=" + digits, "name=" + name] + rest, '&'), '&'));
      |pairs| >= 2 && pairs[0] == ("page", digits) && pairs[1] == ("name", SplitAtFirst(name, '&').0)
  {
    SecondSegmentCut("page=" + digits, "name=", name, rest);
    var pieces := Split(Join(["page=" + digits, "name=" + name] + rest, '&'), '&');
    KeyValuesAt(pieces, 0);
    KeyValuesAt(pieces, 1);
    var a := SplitAtFirst(name, '&').0;
    assert "page=" + digits == "page" + ['='] + digits;
    SplitAtFirstJoin("page", '=', digits);
    assert "name=" + a == "name" + ['='] + a;
    SplitAtFirstJoin("name", '=', a);
  }

  /** With a name filter, the query starts with the page segment and then the name segment. */
  lemma ParamsWithName(page: int, f: Filters)
    requires f.name.Some?
    ensures Params(page, f)
         == Join(["page=" + IntToDecimal(page), "name=" + f.name.value] + PresentSegments(QueryFields(f)[1..]), '&')
  {
    var digits := IntToDecimal(page);
    var name := f.name.value;
    var fields := QueryFields(f);
    var rest := PresentSegments(fields[1..]);
    assert fields[0] == ("name", Some(name));
    assert "name" + "=" + name == "name=" + name;
    assert PresentSegments(fields) == ["name=" + name] + rest;
    assert Segments(page, f) == ["page=" + digits] + (["name=" + name] + rest);
    assert ["page=" + digits] + (["name=" + name] + rest) == ["page=" + digits, "name=" + name] + rest;
  }

  /**
   * The name is the first filter of a query and is not escaped: whatever it
   * contains, reading the query back gives the page and the name up to its
   * first `&` (all of it when it has none).
   */
  lemma DecodedName(page: int, f: Filters)
    requires f.name.Some?
    ensures var d := DecodeQuery(Params(page, f));
      d.Some? && d.value.0 == page && d.value.1.name == Some(SplitAtFirst(f.name.value, '&').0)
  {
    var digits := IntToDecimal(page);
    var name := f.name.value;
    var rest := PresentSegments(QueryFields(f)[1..]);
    ParamsWithName(page, f);
    PageSegmentHasNoAmpersand(page);
    assert '&' !in digits;
    NamePairs(digits, name, rest);
    var pairs := KeyValues(Split(Params(page, f), '&'));
    IntDecimalRoundTrip(page);
    assert Lookup(pairs, "name") == Some(SplitAtFirst(name, '&').0) by {
      assert pairs[1..][0] == pairs[1];
    }
  }

  /**
   * The segments of a query come in the fixed order page, name, status,
   * species, type, gender, each key at most once, `page` first.
   */
  lemma SegmentOrder(page: int, f: Filters)
    requires NoAmpersandInValues(f)
    ensures var pairs := KeyValues(Split(Params(page, f), '&'));
      && pairs[0] == ("page", IntToDecimal(page))
      && forall i, j :: 0 <= i < j < |pairs| ==> KeyRank(pairs[i].0) < KeyRank(pairs[j].0)
  {
    var fields := QueryFields(f);
    QueryPairs(page, f);
    assert fields[0].0 == "name" && fields[1].0 == "status" && fields[2].0 == "species";
    assert fields[3].0 == "type" && fields[4].0 == "gender";
    PresentPairsOrdered(fields, 0);
  }

  lemma {:induction false} PresentSegmentsNone(fields: seq<(string, Option<string>)>)
    requires forall i :: 0 <= i < |fields| ==> fields[i].1.None?
    ensures PresentSegments(fields) == []
  {
    if fields != [] {
      PresentSegmentsNone(fields[1..]);
    }
  }

  /** Different queries give different URLs. */
  lemma UrlDeterminesParams(page: int, f: Filters, page': int, g: Filters)
    requires Url(page, f) == Url(page', g)
    ensures Params(page, f) == Params(page', g)
  {
    assert Url(page, f)[|Base| + 1..] == Params(page, f);
    assert Url(page', g)[|Base| + 1..] == Params(page', g);
  }

  /** A request for the first page with only a name filter. */
  lemma NameQueryExample()
    ensures Url(1, Filters(name := Some("rick"))) == Base + "?page=1&name=rick"
  {
    var f := Filters(name := Some("rick"));
    var fields := QueryFields(f);
    PresentSegmentsNone(fields[1..]);
    assert fields[0].0 + "=" + "rick" == "name=rick";
    assert PresentSegments(fields) == ["name=rick"];
    assert IntToDecimal(1) == "1";
    assert "page=" + "1" == "page=1";
    assert Segments(1, f) == ["page=1", "name=rick"];
  }

  /** A capitalised status is sent lower-cased. */
  lemma StatusQueryExample()
    ensures Params(1, Filters(status := Some("Alive"))) == "page=1&status=alive"
  {
    var f := Filters(status := Some("Alive"));
    var fields := QueryFields(f);
    assert Lowercase("Alive") == "alive" by {
      LowercaseAt("Alive");
    }
    PresentSegmentsNone(fields[2..]);
    assert fields[1..][1..] == fields[2..];
    assert fields[1] == ("status", Some("alive"));
    assert "status" + "=" + "alive" == "status=alive";
    assert PresentSegments(fields[1..]) == ["status=alive"];
    assert PresentSegments(fields) == ["status=alive"];
    assert IntToDecimal(1) == "1";
    assert "page=" + "1" == "page=1";
    assert Segments(1, f) == ["page=1", "status=alive"];
  }

  lemma JoinThree(a: string, b: string, c: string, sep: char)
    ensures Join([a, b, c], sep) == a + [sep] + b + [sep] + c
  {
    assert [a, b, c][1..] == [b, c];
    assert [b, c][1..] == [c];
    assert Join([b, c], sep) == b + [sep] + c;
    assert Join([a, b, c], sep) == a + [sep] + (b + [sep] + c);
  }

  /** The segments of a request with an empty species and a gender. */
  lemma EmptyValueSegments(page: int, gender: string)
    ensures Segments(page, Filters(species := Some(""), gender := Some(gender)))
         == ["page=" + IntToDecimal(page), "species=", "gender=" + Lowercase(gender)]
  {
    var f := Filters(species := Some(""), gender := Some(gender));
    var fields := QueryFields(f);
    var low := Lowercase(gender);
    assert fields[4] == ("gender", Some(low)) && fields[2] == ("species", Some(""));
    assert "gender" + "=" + low == "gender=" + low;
    assert "species" + "=" + "" == "species=";
    assert fields[4..][1..] == [];
    assert PresentSegments(fields[4..]) == ["gender=" + low];
    assert fields[3..][1..] == fields[4..];
    assert PresentSegments(fields[3..]) == ["gender=" + low];
    assert fields[2..][1..] == fields[3..];
    assert PresentSegments(fields[2..]) == ["species=", "gender=" + low];
    assert fields[1..][1..] == fields[2..];
    assert PresentSegments(fields[1..]) == ["species=", "gender=" + low];
    assert PresentSegments(fields) == ["species=", "gender=" + low];
  }

  /**
   * An empty filter value is still sent, as `key=`: only null filters are
   * left out. The gender beside it goes out lower-cased.
   */
  lemma EmptyValueSent(page: int, gender: string)
    ensures Params(page, Filters(species := Some(""), gender := Some(gender)))
         == "page=" + IntToDecimal(page) + "&species=&gender=" + Lowercase(gender)
  {
    var head := "page=" + IntToDecimal(page);
    var last := "gender=" + Lowercase(gender);
    EmptyValueSegments(page, gender);
    JoinThree(head, "species=", last, '&');
    assert head + ['&'] + "species=" + ['&'] + last == head + ("&species=&gender=" + Lowercase(gender));
  }

  // ---------------------------------------------------------------------------
  // fetchAllCharacters
  // ---------------------------------------------------------------------------

  /** Prefixes the characters already gathered to an outcome; an error stays that error. */
  function Prepend(acc: seq<Character>, r: Result<seq<Character>>): Result<seq<Character>> {
    match r
    case Err(e) => Err(e)
    case Ok(rest) => Ok(acc + rest)
  }

  lemma PrependTwice(a: seq<Character>, b: seq<Character>, r: Result<seq<Character>>)
    ensures Prepend(a, Prepend(b, r)) == Prepend(a + b, r)
  {
    if r.Ok? {
      assert a + (b + r.value) == (a + b) + r.value;
    }
  }

  /** One page fetch for fixed filters, as a function of the page number. */
  type PageFetch = int -> Result<CharacterResponse>

  /** `fetchPage(p, name, status, species, type, gender)` with the filters fixed. */
  function PageFetcher(get: Http, f: Filters): PageFetch {
    p => FetchPage(get, p, f)
  }

  /**
   * The characters of pages `from..last`, fetched in ascending order; the
   * error of the first page whose fetch throws, if one does.
   */
  function PagesFrom(fetch: PageFetch, from: int, last: int): Result<seq<Character>>
    decreases last - from + 1
  {
    if from > last then Ok([])
    else
      match fetch(from)
      case Err(e) => Err(e)
      case Ok(resp) => Prepend(resp.results, PagesFrom(fetch, from + 1, last))
  }

  /**
   * What `fetchAllCharacters` returns: the first page's characters followed
   * by those of pages 2..`info.pages` of the first page, or the error it throws.
   */
  function AllPages(fetch: PageFetch): Result<seq<Character>> {
    match fetch(1)
    case Err(e) => Err(e)
    case Ok(first) => Prepend(first.results, PagesFrom(fetch, 2, first.info.pages))
  }

  /** The pages requested among `from..last`: up to and including the first that fails. */
  function RequestedFrom(fetch: PageFetch, from: int, last: int): seq<int>
    decreases last - from + 1
  {
    if from > last then []
    else if fetch(from).Err? then [from]
    else [from] + RequestedFrom(fetch, from + 1, last)
  }

  /** The pages `fetchAllCharacters` requests, in order. */
  function Requested(fetch: PageFetch): seq<int> {
    [1] + match fetch(1)
          case Err(_) => []
          case Ok(first) => RequestedFrom(fetch, 2, first.info.pages)
  }

  /** One step of the walk: page `p` either ends it with its error or adds its characters. */
  lemma WalkStep(fetch: PageFetch, p: int, last: int)
    requires p <= last
    ensures fetch(p).Err? ==> PagesFrom(fetch, p, last) == Err(fetch(p).cause) && RequestedFrom(fetch, p, last) == [p]
    ensures fetch(p).Ok? ==>
      && PagesFrom(fetch, p, last) == Prepend(fetch(p).value.results, PagesFrom(fetch, p + 1, last))
      && RequestedFrom(fetch, p, last) == [p] + RequestedFrom(fetch, p + 1, last)
  {
  }

  /**
   * `fetchAllCharacters`: fetch page 1, then pages 2..`pages` one after the
   * other, appending each page's characters. A thrown exception ends the walk
   * and propagates. `requested` lists the pages fetched, in order; every
   * fetch uses the caller's filters.
   */
  method FetchAllCharacters(get: Http, f: Filters) returns (r: Result<seq<Character>>, requested: seq<int>)
    ensures r == AllPages(PageFetcher(get, f))
    ensures requested == Requested(PageFetcher(get, f))
  {
    var fetch := PageFetcher(get, f);
    requested := [1];
    var first := fetch(1);
    if first.Err? {
      return Err(first.cause), requested;
    }
    var acc := first.value.results;
    var pages := first.value.info.pages;
    var p := 2;
    while p <= pages
      invariant 2 <= p && (p <= pages + 1 || p == 2)
      invariant AllPages(fetch) == Prepend(acc, PagesFrom(fetch, p, pages))
      invariant Requested(fetch) == requested + RequestedFrom(fetch, p, pages)
      decreases pages - p + 1
    {
      var resp := fetch(p);
      WalkStep(fetch, p, pages);
      requested := requested + [p];
      if resp.Err? {
        return Err(resp.cause), requested;
      }
      PrependTwice(acc, resp.value.results, PagesFrom(fetch, p + 1, pages));
      acc := acc + resp.value.results;
      p := p + 1;
    }
    assert acc + [] == acc && requested + [] == requested;
    r := Ok(acc);
  }

  function Max(a: int, b: int): int { if a < b then b else a }

  /** The characters of page `p`, or none when its fetch throws. */
  function PageResults(fetch: PageFetch, p: int): seq<Character> {
    match fetch(p)
    case Ok(resp) => resp.results
    case Err(_) => []
  }

  /** The concatenation of a list of pages, in order. */
  function Flatten(pages: seq<seq<Character>>): seq<Character> {
    if pages == [] then [] else pages[0] + Flatten(pages[1..])
  }

  /**
   * Pages `from..last` gather without error exactly when every one of them
   * fetches without error, and then they are the pages' characters in order.
   */
  lemma {:induction false} PagesFromOutcome(fetch: PageFetch, from: int, last: int)
    ensures PagesFrom(fetch, from, last).Ok? <==> forall p :: from <= p <= last ==> fetch(p).Ok?
    ensures PagesFrom(fetch, from, last).Ok? ==>
      PagesFrom(fetch, from, last).value == Flatten(seq(Max(0, last - from + 1), i => PageResults(fetch, from + i)))
    decreases last - from + 1
  {
    if from <= last {
      PagesFromOutcome(fetch, from + 1, last);
      var n := last - from + 1;
      var pages := seq(n, i => PageResults(fetch, from + i));
      assert pages[1..] == seq(Max(0, last - (from + 1) + 1), i => PageResults(fetch, from + 1 + i));
      assert pages[0] == PageResults(fetch, from);
      if fetch(from).Ok? {
        assert (forall p :: from <= p <= last ==> fetch(p).Ok?)
          <==> (forall p :: from + 1 <= p <= last ==> fetch(p).Ok?);
      }
    } else {
      assert seq(Max(0, last - from + 1), i => PageResults(fetch, from + i)) == [];
    }
  }

  /**
   * The pages requested among `from..last` are consecutive from `from`; every
   * one but the last fetched without error; all of them are requested when
   * the walk succeeds, and otherwise the walk's error is the last one's.
   */
  lemma {:induction false} RequestedFromShape(fetch: PageFetch, from: int, last: int)
    ensures var ps := RequestedFrom(fetch, from, last);
      && (forall i :: 0 <= i < |ps| ==> ps[i] == from + i)
      && (forall p :: from <= p < from + |ps| - 1 ==> fetch(p).Ok?)
      && (PagesFrom(fetch, from, last).Ok? ==> |ps| == Max(0, last - from + 1))
      && (PagesFrom(fetch, from, last).Err? ==>
            |ps| >= 1 && fetch(from + |ps| - 1) == Err(PagesFrom(fetch, from, last).cause))
    decreases last - from + 1
  {
    if from <= last && fetch(from).Ok? {
      RequestedFromShape(fetch, from + 1, last);
      var ps := RequestedFrom(fetch, from, last);
      assert forall i :: 1 <= i < |ps| ==> ps[i] == RequestedFrom(fetch, from + 1, last)[i - 1];
    }
  }

  /**
   * `fetchAllCharacters` requests pages 1, 2, ... in ascending order. When it
   * returns, it has requested `max(1, pages)` pages; when it throws, the last
   * page requested is the one that threw and every earlier one succeeded.
   */
  lemma AllPagesRequested(fetch: PageFetch)
    ensures var ps := Requested(fetch);
      && |ps| >= 1
      && (forall i :: 0 <= i < |ps| ==> ps[i] == i + 1)
      && (forall p :: 1 <= p < |ps| ==> fetch(p).Ok?)
      && (AllPages(fetch).Ok? ==> |ps| == Max(1, fetch(1).value.info.pages))
      && (AllPages(fetch).Err? ==> fetch(|ps|) == Err(AllPages(fetch).cause))
  {
    var ps := Requested(fetch);
    if fetch(1).Ok? {
      var pages := fetch(1).value.info.pages;
      RequestedFromShape(fetch, 2, pages);
      assert forall i :: 1 <= i < |ps| ==> ps[i] == RequestedFrom(fetch, 2, pages)[i - 1];
    }
  }

  /**
   * `fetchAllCharacters` returns exactly when page 1 and every page
   * 2..`pages` fetch without error, and it then returns the characters of
   * pages 1..`max(1, pages)` concatenated in ascending page order.
   */
  lemma AllPagesContents(fetch: PageFetch)
    ensures AllPages(fetch).Ok?
        <==> fetch(1).Ok? && forall p :: 2 <= p <= fetch(1).value.info.pages ==> fetch(p).Ok?
    ensures AllPages(fetch).Ok? ==>
      AllPages(fetch).value == Flatten(seq(Max(1, fetch(1).value.info.pages), i => PageResults(fetch, i + 1)))
  {
    if fetch(1).Ok? {
      var first := fetch(1).value;
      var n := Max(1, first.info.pages);
      PagesFromOutcome(fetch, 2, first.info.pages);
      var pages := seq(n, i => PageResults(fetch, i + 1));
      assert pages[0] == first.results;
      assert pages[1..] == seq(Max(0, first.info.pages - 2 + 1), i => PageResults(fetch, 2 + i));
    }
  }

  /** With at most one page, `fetchAllCharacters` requests page 1 only and returns its characters. */
  lemma SinglePage(fetch: PageFetch)
    requires fetch(1).Ok? && fetch(1).value.info.pages <= 1
    ensures AllPages(fetch) == Ok(fetch(1).value.results)
    ensures Requested(fetch) == [1]
  {
    assert fetch(1).value.results + [] == fetch(1).value.results;
  }
}
