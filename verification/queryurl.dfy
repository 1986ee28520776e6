/** `getQueryUrl(query)`: the request URL for the geocoding endpoint, and a parser
    for such URLs that shows what the built URL says. */
module QueryUrl {
  import opened Wrappers
  import opened Strings
  import opened UriEncoding
  import opened Languages
  import opened Geocoding
  import opened JsValues

  const BaseUrl := "https://api.maptiler.com/geocoding/"
  const Extension := ".json"

  /** `numbers.map(String)`: each number as `Array.prototype.join` writes it. */
  function Format(numbers: seq<real>, numToString: real -> string): (r: seq<string>)
    ensures |r| == |numbers|
    ensures forall i :: 0 <= i < |numbers| ==> r[i] == numToString(numbers[i])
  {
    seq(|numbers|, i requires 0 <= i < |numbers| => numToString(numbers[i]))
  }

  /** The `&language=` parameter; an array converts to its codes joined by commas,
      so the value splits back at commas into the codes. */
  function LanguageParam(language: Option<seq<string>>): (r: string)
    ensures r == [] <==> language.None?
    ensures language.Some? ==> |r| >= 10 && r[..10] == "&language="
    ensures language.Some? && language.value != [] && (forall i :: 0 <= i < |language.value| ==> ',' !in language.value[i])
            ==> Split(r[10..], ',') == language.value
  {
    if language.Some? then
      var value := Join(language.value, ",");
      JoinSplitsBack(language.value);
      "&language=" + value
    else ""
  }

  /** The `&bbox=` parameter; its value splits back at commas into the four numbers
      as written, in the order min longitude, min latitude, max longitude, max latitude. */
  function BoundsParam(bounds: Option<BBox>, numToString: real -> string): (r: string)
    ensures r == [] <==> bounds.None?
    ensures bounds.Some? ==> |r| >= 6 && r[..6] == "&bbox="
    ensures bounds.Some? && Avoids(numToString, ',') ==>
              Split(r[6..], ',') == [numToString(bounds.value.minLon), numToString(bounds.value.minLat),
                                     numToString(bounds.value.maxLon), numToString(bounds.value.maxLat)]
  {
    if bounds.Some? then
      var b := bounds.value;
      var numbers := Format(b.Coordinates(), numToString);
      assert numbers == [numToString(b.minLon), numToString(b.minLat), numToString(b.maxLon), numToString(b.maxLat)];
      NumbersSplitBack(numbers, numToString);
      "&bbox=" + Join(numbers, ",")
    else ""
  }

  /** The `&proximity=` parameter; its value splits back at commas into the
      longitude and the latitude as written. */
  function ProximityParam(proximity: Option<Point>, numToString: real -> string): (r: string)
    ensures r == [] <==> proximity.None?
    ensures proximity.Some? ==> |r| >= 11 && r[..11] == "&proximity="
    ensures proximity.Some? && Avoids(numToString, ',') ==>
              Split(r[11..], ',') == [numToString(proximity.value.lon), numToString(proximity.value.lat)]
  {
    if proximity.Some? then
      var p := proximity.value;
      var numbers := Format(p.Coordinates(), numToString);
      assert numbers == [numToString(p.lon), numToString(p.lat)];
      NumbersSplitBack(numbers, numToString);
      "&proximity=" + Join(numbers, ",")
    else ""
  }

  /** Codes without commas, at least one, split back out of their comma join. */
  lemma JoinSplitsBack(codes: seq<string>)
    ensures codes != [] && (forall i :: 0 <= i < |codes| ==> ',' !in codes[i]) ==> Split(Join(codes, ","), ',') == codes
  {
    if codes != [] && (forall i :: 0 <= i < |codes| ==> ',' !in codes[i]) {
      SplitJoin(codes, ',');
    }
  }

  /** Numbers written without commas split back out of their comma join. */
  lemma NumbersSplitBack(numbers: seq<string>, numToString: real -> string)
    requires |numbers| >= 1
    requires forall i :: 0 <= i < |numbers| ==> exists x :: numbers[i] == numToString(x)
    ensures Avoids(numToString, ',') ==> Split(Join(numbers, ","), ',') == numbers
  {
    if Avoids(numToString, ',') {
      SplitJoin(numbers, ',');
    }
  }

  /** The part of every URL that does not depend on the optional settings. */
  function Head(g: Geocoder, query: string): string {
    BaseUrl + EncodeUriComponent(query) + Extension + "?key=" + g.key
  }

  /** `getQueryUrl(query)`: the fixed endpoint, the percent-encoded query as one path
      segment, `.json?key=` and the key, then `language`, `bbox` and `proximity`,
      each only when set. `numToString` is JavaScript's number-to-string conversion. */
  function GetQueryUrl(g: Geocoder, query: string, numToString: real -> string): (url: string)
    ensures |url| >= |Head(g, query)| && url[..|Head(g, query)|] == Head(g, query)
    ensures g.language.None? && g.bounds.None? && g.proximity.None? ==> url == Head(g, query)
  {
    Head(g, query) + LanguageParam(g.language) + BoundsParam(g.bounds, numToString) + ProximityParam(g.proximity, numToString)
  }

  /** Setting any code of the allow-list (the entry at `index`) succeeds, and the URL
      then carries exactly `&language=` and that code between the key and the other
      parameters. */
  lemma ValidCodeReachesUrl(g: Geocoder, index: nat, query: string, numToString: real -> string)
    requires index < |ValidLanguages|
    ensures SetLanguage(g, Code(ValidLanguages[index])).Success?
    ensures GetQueryUrl(SetLanguage(g, Code(ValidLanguages[index])).value, query, numToString)
            == Head(g, query) + ("&language=" + ValidLanguages[index]) + BoundsParam(g.bounds, numToString)
               + ProximityParam(g.proximity, numToString)
  {
    var code := ValidLanguages[index];
    assert IsValidLanguage(code);
    assert InvalidCodes([code]) == [];
  }

  /** The URL depends on the query, the key and the three optional settings only. */
  lemma UrlIgnoresWait(g: Geocoder, wait: Num, query: string, numToString: real -> string)
    ensures GetQueryUrl(g.(autocompleteWaitMs := wait), query, numToString) == GetQueryUrl(g, query, numToString)
  {
  }

  /** The encoded query never leaves its path segment or starts the query string. */
  lemma EncodedQueryIsOneSegment(query: string)
    ensures '/' !in EncodeUriComponent(query)
    ensures '?' !in EncodeUriComponent(query)
    ensures '#' !in EncodeUriComponent(query)
    ensures '&' !in EncodeUriComponent(query)
  {
  }

  // ------------------------------------------------------------ reading back

  /** A URL taken apart: the decoded query and the `name=value` parameters in order. */
  datatype UrlParts = UrlParts(query: string, params: seq<(string, string)>)

  /** `name=value` split at the first `=`. */
  function Param(segment: string): (string, string) {
    match SplitFirst(segment, '=')
    case None => (segment, "")
    case Some((name, value)) => (name, value)
  }

  /** The parameters of a query string, names and values still encoded. */
  function Params(search: string): seq<(string, string)> {
    var segments := Split(search, '&');
    seq(|segments|, i requires 0 <= i < |segments| => Param(segments[i]))
  }

  /** The query string proper: everything before the first `#`, which starts the
      fragment. */
  function QueryString(search: string): (r: string)
    ensures '#' !in r
    ensures '#' !in search ==> r == search
    ensures '#' in search ==> |r| < |search| && search[..|r|] == r && search[|r|] == '#'
  {
    match SplitFirst(search, '#')
    case None => search
    case Some((before, _)) => before
  }

  /** Every name and value percent-decoded; None when any of them is malformed. */
  function DecodeParams(ps: seq<(string, string)>): (r: Option<seq<(string, string)>>)
    ensures r.Some? <==> forall i :: 0 <= i < |ps| ==> Decode(ps[i].0).Some? && Decode(ps[i].1).Some?
    ensures r.Some? ==> |r.value| == |ps|
    ensures r.Some? ==> forall i :: 0 <= i < |ps| ==>
              r.value[i] == (Decode(ps[i].0).value, Decode(ps[i].1).value)
    decreases |ps|
  {
    if |ps| == 0 then Some([])
    else
      match (Decode(ps[0].0), Decode(ps[0].1), DecodeParams(ps[1..]))
      case (Some(name), Some(value), Some(rest)) => Some([(name, value)] + rest)
      case _ => None
  }

  /** Text without `%` decodes to itself. */
  lemma {:induction false} DecodePlain(s: string)
    requires '%' !in s
    ensures Decode(s) == Some(s)
    decreases |s|
  {
    if |s| > 0 {
      DecodePlain(s[1..]);
      assert s == [s[0]] + s[1..];
    }
  }

  /** Parameters without `%` decode to themselves. */
  lemma DecodeParamsPlain(ps: seq<(string, string)>)
    requires forall i :: 0 <= i < |ps| ==> '%' !in ps[i].0 && '%' !in ps[i].1
    ensures DecodeParams(ps) == Some(ps)
  {
    forall i | 0 <= i < |ps|
      ensures Decode(ps[i].0) == Some(ps[i].0) && Decode(ps[i].1) == Some(ps[i].1)
    {
      DecodePlain(ps[i].0);
      DecodePlain(ps[i].1);
    }
    var r := DecodeParams(ps);
    assert r.Some?;
    assert |r.value| == |ps|;
    assert forall i :: 0 <= i < |ps| ==> r.value[i] == ps[i];
    assert r.value == ps;
  }

  /** Reads a URL of the endpoint's shape: the base, one path segment ending in
      `.json` whose stem decodes to the query, then `?` and the query string up to
      any `#`, whose names and values are decoded as well. */
  function ParseQueryUrl(url: string): Option<UrlParts> {
    if |url| < |BaseUrl| || url[..|BaseUrl|] != BaseUrl then None
    else
      match SplitFirst(url[|BaseUrl|..], '?')
      case None => None
      case Some((path, search)) =>
        if |path| < |Extension| || path[|path| - |Extension|..] != Extension then None
        else
          match Decode(path[..|path| - |Extension|])
          case None => None
          case Some(query) =>
            match DecodeParams(Params(QueryString(search)))
            case None => None
            case Some(ps) => Some(UrlParts(query, ps))
  }

  /** The parameters the geocoder's settings call for, in the order they are sent. */
  function SettingsParams(g: Geocoder, numToString: real -> string): seq<(string, string)> {
    [("key", g.key)]
    + LanguageEntry(g.language)
    + BoundsEntry(g.bounds, numToString)
    + ProximityEntry(g.proximity, numToString)
  }

  /** Number-to-string conversion writes neither separator, no `#` and no `%`;
      JavaScript's writes only digits, signs, a point, an exponent marker, `Infinity`
      or `NaN`. */
  ghost predicate PlainNumbers(numToString: real -> string) {
    Avoids(numToString, '&') && Avoids(numToString, ',') && Avoids(numToString, '#') && Avoids(numToString, '%')
  }

  /** No number is written with `c`. */
  ghost predicate Avoids(numToString: real -> string, c: char) {
    forall x :: c !in numToString(x)
  }

  function Segment(p: (string, string)): string {
    p.0 + "=" + p.1
  }

  function Segments(ps: seq<(string, string)>): (r: seq<string>)
    ensures |r| == |ps|
    ensures forall i :: 0 <= i < |ps| ==> r[i] == Segment(ps[i])
  {
    seq(|ps|, i requires 0 <= i < |ps| => Segment(ps[i]))
  }

  /** Appending a parameter appends `&name=value` to the query string. */
  lemma JoinSegmentsSnoc(ps: seq<(string, string)>, p: (string, string))
    requires |ps| >= 1
    ensures Join(Segments(ps + [p]), "&") == Join(Segments(ps), "&") + ("&" + Segment(p) + [])
  {
    assert Segments(ps + [p]) == Segments(ps) + [Segment(p)];
    JoinAppend(Segments(ps), [Segment(p)], "&");
    assert Join(Segments(ps), "&") + "&" + Segment(p) == Join(Segments(ps), "&") + ("&" + Segment(p) + []);
  }

  /** A joined list holds a character only if a part or the separator does. */
  lemma {:induction false} JoinExcludes(parts: seq<string>, sep: string, c: char)
    requires c !in sep
    requires forall i :: 0 <= i < |parts| ==> c !in parts[i]
    ensures c !in Join(parts, sep)
    decreases |parts|
  {
    if |parts| > 1 {
      JoinExcludes(parts[1..], sep, c);
    }
  }

  /** Reading back a query string built from parameters whose names hold no `=` or
      `&` and whose values hold no `&` gives the parameters back. */
  lemma ParamsRoundTrip(ps: seq<(string, string)>)
    requires |ps| >= 1
    requires forall i :: 0 <= i < |ps| ==> '=' !in ps[i].0 && '&' !in ps[i].0 && '&' !in ps[i].1
    ensures Params(Join(Segments(ps), "&")) == ps
  {
    var segs := Segments(ps);
    forall i | 0 <= i < |segs|
      ensures '&' !in segs[i]
    {
      assert segs[i] == ps[i].0 + ['='] + ps[i].1;
    }
    SplitJoin(segs, '&');
    forall i | 0 <= i < |ps|
      ensures Param(segs[i]) == ps[i]
    {
      SplitFirstAfter(ps[i].0, ps[i].1, '=');
      assert segs[i] == ps[i].0 + ['='] + ps[i].1;
    }
  }

  /** The parameters in `extra` as they appear in the query string, each preceded by `&`. */
  function Tail(extra: seq<(string, string)>): string
    decreases |extra|
  {
    if |extra| == 0 then [] else "&" + Segment(extra[0]) + Tail(extra[1..])
  }

  /** Appending at most one parameter appends its `&name=value`, if any. */
  lemma AppendOptional(ps: seq<(string, string)>, extra: seq<(string, string)>)
    requires |ps| >= 1 && |extra| <= 1
    ensures Join(Segments(ps + extra), "&") == Join(Segments(ps), "&") + Tail(extra)
  {
    if |extra| == 0 {
      assert ps + extra == ps;
    } else {
      var e := extra[0];
      assert extra == [e];
      assert Tail(extra) == "&" + Segment(e) + Tail([]);
      JoinSegmentsSnoc(ps, e);
    }
  }

  function LanguageEntry(language: Option<seq<string>>): seq<(string, string)> {
    if language.Some? then [("language", Join(language.value, ","))] else []
  }

  function BoundsEntry(bounds: Option<BBox>, numToString: real -> string): seq<(string, string)> {
    if bounds.Some? then [("bbox", Join(Format(bounds.value.Coordinates(), numToString), ","))] else []
  }

  function ProximityEntry(proximity: Option<Point>, numToString: real -> string): seq<(string, string)> {
    if proximity.Some? then [("proximity", Join(Format(proximity.value.Coordinates(), numToString), ","))] else []
  }

  /** The key parameter on its own. */
  lemma KeySegment(key: string)
    ensures Join(Segments([("key", key)]), "&") == "key=" + key
  {
    assert Segments([("key", key)]) == ["key" + "=" + key];
  }

  /** Each optional parameter text is its entry preceded by `&`. */
  lemma EntryTails(g: Geocoder, numToString: real -> string)
    ensures Tail(LanguageEntry(g.language)) == LanguageParam(g.language)
    ensures Tail(BoundsEntry(g.bounds, numToString)) == BoundsParam(g.bounds, numToString)
    ensures Tail(ProximityEntry(g.proximity, numToString)) == ProximityParam(g.proximity, numToString)
  {
  }

  /** The query string of a built URL is the settings' parameters, `&`-joined. */
  lemma SearchIsJoinedParams(g: Geocoder, numToString: real -> string)
    ensures "key=" + g.key + LanguageParam(g.language) + BoundsParam(g.bounds, numToString)
              + ProximityParam(g.proximity, numToString)
            == Join(Segments(SettingsParams(g, numToString)), "&")
  {
    var p0: seq<(string, string)> := [("key", g.key)];
    var e1 := LanguageEntry(g.language);
    var e2 := BoundsEntry(g.bounds, numToString);
    var e3 := ProximityEntry(g.proximity, numToString);
    KeySegment(g.key);
    EntryTails(g, numToString);
    AppendOptional(p0, e1);
    AppendOptional(p0 + e1, e2);
    AppendOptional(p0 + e1 + e2, e3);
  }

  /** No value the settings send holds `c`, one of the characters the reader treats
      specially, given a key without it. */
  lemma ValuesAvoid(g: Geocoder, numToString: real -> string, c: char)
    requires Valid(g) && (c == '&' || c == '#' || c == '%')
    requires c !in g.key && Avoids(numToString, c)
    ensures forall i :: 0 <= i < |SettingsParams(g, numToString)| ==> c !in SettingsParams(g, numToString)[i].1
  {
    if g.language.Some? {
      var codes := g.language.value;
      forall i | 0 <= i < |codes|
        ensures c !in codes[i]
      {
        ValidLanguageShape(codes[i]);
      }
      JoinExcludes(codes, ",", c);
    }
    if g.bounds.Some? {
      JoinExcludes(Format(g.bounds.value.Coordinates(), numToString), ",", c);
    }
    if g.proximity.Some? {
      JoinExcludes(Format(g.proximity.value.Coordinates(), numToString), ",", c);
    }
  }

  /** Every name and value the settings send is free of the characters the reader
      treats specially, given a key without `&`, `#` and `%`. */
  lemma SettingsParamsPlain(g: Geocoder, numToString: real -> string)
    requires Valid(g) && PlainKey(g.key) && PlainNumbers(numToString)
    ensures forall i :: 0 <= i < |SettingsParams(g, numToString)| ==>
              var p := SettingsParams(g, numToString)[i];
              '=' !in p.0 && '&' !in p.0 && '#' !in p.0 && '%' !in p.0
              && '&' !in p.1 && '#' !in p.1 && '%' !in p.1
  {
    ValuesAvoid(g, numToString, '&');
    ValuesAvoid(g, numToString, '#');
    ValuesAvoid(g, numToString, '%');
  }

  /** A key the URL carries unchanged: the geocoder does not encode it. */
  predicate PlainKey(key: string) {
    '&' !in key && '#' !in key && '%' !in key
  }

  /** A query string built from parameters without `c` holds no `c`. */
  lemma SegmentsExclude(ps: seq<(string, string)>, c: char)
    requires c != '=' && c != '&'
    requires forall i :: 0 <= i < |ps| ==> c !in ps[i].0 && c !in ps[i].1
    ensures c !in Join(Segments(ps), "&")
  {
    var segs := Segments(ps);
    forall i | 0 <= i < |segs|
      ensures c !in segs[i]
    {
      assert segs[i] == ps[i].0 + ['='] + ps[i].1;
    }
    JoinExcludes(segs, "&", c);
  }

  /** `GetQueryUrl` with its concatenation grouped around the first `?`. */
  lemma UrlRegrouped(g: Geocoder, query: string, numToString: real -> string)
    ensures GetQueryUrl(g, query, numToString)
            == BaseUrl + ((EncodeUriComponent(query) + Extension) + ['?']
               + ("key=" + g.key + LanguageParam(g.language) + BoundsParam(g.bounds, numToString)
                  + ProximityParam(g.proximity, numToString)))
  {
    assert "?key=" == ['?'] + "key=";
    Regroup(BaseUrl, EncodeUriComponent(query), Extension, ['?'], "key=", g.key,
      LanguageParam(g.language), BoundsParam(g.bounds, numToString), ProximityParam(g.proximity, numToString));
  }

  /** Every URL starts with the base, and its first `?` comes right after the
      encoded query and `.json`: what follows is the `&`-joined key and settings.
      This holds for every key, even one holding `?`: the first `?` is the one the
      URL itself adds. */
  lemma UrlShape(g: Geocoder, query: string, numToString: real -> string)
    ensures |GetQueryUrl(g, query, numToString)| >= |BaseUrl|
    ensures GetQueryUrl(g, query, numToString)[..|BaseUrl|] == BaseUrl
    ensures SplitFirst(GetQueryUrl(g, query, numToString)[|BaseUrl|..], '?')
            == Some((EncodeUriComponent(query) + Extension, Join(Segments(SettingsParams(g, numToString)), "&")))
  {
    var path := EncodeUriComponent(query) + Extension;
    var search := "key=" + g.key + LanguageParam(g.language) + BoundsParam(g.bounds, numToString)
                  + ProximityParam(g.proximity, numToString);
    UrlRegrouped(g, query, numToString);
    var url := GetQueryUrl(g, query, numToString);
    assert url == BaseUrl + (path + ['?'] + search);
    assert url[|BaseUrl|..] == path + ['?'] + search;
    EncodedQueryIsOneSegment(query);
    assert '?' !in path;
    SplitFirstAfter(path, search, '?');
    SearchIsJoinedParams(g, numToString);
  }

  /** Concatenation regrouped around the `?` of a URL. */
  lemma Regroup(a: string, e: string, x: string, q: string, k: string, key: string, l: string, b: string, p: string)
    ensures a + e + x + (q + k) + key + l + b + p == a + ((e + x) + q + (k + key + l + b + p))
  {
  }

  /** Reading a URL of the endpoint's shape whose segment has no `?`. */
  lemma ParseShaped(segment: string, search: string)
    requires '?' !in segment
    ensures ParseQueryUrl(BaseUrl + ((segment + Extension) + ['?'] + search))
            == match Decode(segment)
               case None => None
               case Some(query) =>
                 match DecodeParams(Params(QueryString(search)))
                 case None => None
                 case Some(ps) => Some(UrlParts(query, ps))
  {
    var path := segment + Extension;
    var url := BaseUrl + (path + ['?'] + search);
    assert url[..|BaseUrl|] == BaseUrl;
    assert url[|BaseUrl|..] == path + ['?'] + search;
    assert '?' !in path;
    SplitFirstAfter(path, search, '?');
    assert path[|path| - |Extension|..] == Extension;
    assert path[..|path| - |Extension|] == segment;
  }

  /** The built URL reads back as the query it was asked for, followed by the key and
      exactly the optional parameters that are set, in the order language, bbox,
      proximity. The key must hold no `&`, `#` or `%`: the geocoder does not encode
      it. */
  lemma GetQueryUrlRoundTrip(g: Geocoder, query: string, numToString: real -> string)
    requires Valid(g)
    requires PlainKey(g.key)
    requires PlainNumbers(numToString)
    ensures ParseQueryUrl(GetQueryUrl(g, query, numToString))
            == Some(UrlParts(query, SettingsParams(g, numToString)))
  {
    UrlRegrouped(g, query, numToString);
    EncodedQueryIsOneSegment(query);
    ParseShaped(EncodeUriComponent(query),
      "key=" + g.key + LanguageParam(g.language) + BoundsParam(g.bounds, numToString)
      + ProximityParam(g.proximity, numToString));
    DecodeEncode(query);
    SearchIsJoinedParams(g, numToString);
    var ps := SettingsParams(g, numToString);
    SettingsParamsPlain(g, numToString);
    SegmentsExclude(ps, '#');
    ParamsRoundTrip(ps);
    DecodeParamsPlain(ps);
  }

  /** Each comma-joined value splits back into what was stored, in stored order:
      the language codes (when there is at least one), the four box coordinates and
      the two point coordinates, as the number conversion writes them. */
  lemma ParameterValuesRoundTrip(g: Geocoder, numToString: real -> string)
    requires Valid(g)
    requires Avoids(numToString, ',')
    ensures g.language.Some? && g.language.value != [] ==>
              Split(Join(g.language.value, ","), ',') == g.language.value
    ensures g.bounds.Some? ==>
              Split(Join(Format(g.bounds.value.Coordinates(), numToString), ","), ',')
              == [numToString(g.bounds.value.minLon), numToString(g.bounds.value.minLat),
                  numToString(g.bounds.value.maxLon), numToString(g.bounds.value.maxLat)]
    ensures g.proximity.Some? ==>
              Split(Join(Format(g.proximity.value.Coordinates(), numToString), ","), ',')
              == [numToString(g.proximity.value.lon), numToString(g.proximity.value.lat)]
  {
    if g.language.Some? && g.language.value != [] {
      var codes := g.language.value;
      forall i | 0 <= i < |codes|
        ensures ',' !in codes[i]
      {
        ValidLanguageShape(codes[i]);
      }
      SplitJoin(codes, ',');
    }
    if g.bounds.Some? {
      var f := Format(g.bounds.value.Coordinates(), numToString);
      SplitJoin(f, ',');
    }
    if g.proximity.Some? {
      var f := Format(g.proximity.value.Coordinates(), numToString);
      SplitJoin(f, ',');
    }
  }
}
