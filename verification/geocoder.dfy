/** The configuration half of the `Geocoder` class: the key check and defaults of
    the constructor and the three validating setters. The object is an immutable
    record; a call that throws is a `Failure` and leaves the caller holding the
    record it had, which is how "the field keeps its previous value" reads here. */
module Geocoding {
  import opened Wrappers
  import opened JsValues
  import opened Strings
  import opened Languages

  /** An error the geocoder throws, with the message it throws it with. */
  datatype Error = Error(message: string)

  const NoKeyMessage := "No key provided."
  const InvalidLanguagePrefix := "Invalid language codes: "
  const InvalidBoundsMessage := "Invalid bounds"
  const InvalidProximitySyntaxMessage := "Invalid proximity syntax"
  const InvalidProximityValueMessage := "Invalid proximity value"

  /** The autocomplete debounce used when none (or a falsy one) is configured. */
  const DefaultAutocompleteWaitMs: Num := Finite(500.0)

  /** A stored bounding box `[minLon, minLat, maxLon, maxLat]`. */
  datatype BBox = BBox(minLon: real, minLat: real, maxLon: real, maxLat: real) {
    /** The array the geocoder keeps, in its order. */
    function Coordinates(): (r: seq<real>)
      ensures |r| == 4
    {
      [minLon, minLat, maxLon, maxLat]
    }
  }

  /** A stored proximity point `[lon, lat]`. */
  datatype Point = Point(lon: real, lat: real) {
    function Coordinates(): (r: seq<real>)
      ensures |r| == 2
    {
      [lon, lat]
    }
  }

  /** What a caller may pass to `setLanguage`: nothing (null or undefined), one code,
      or an array of codes. */
  datatype LanguageArg = NoLanguage | Code(code: string) | Codes(codes: seq<string>)

  /** The state of a `Geocoder`: `key_`, `autocompleteWaitMs_`, `language_`,
      `bounds_` and `proximity_`. A falsy stored value is `None`. */
  datatype Geocoder = Geocoder(
    key: string,
    autocompleteWaitMs: Num,
    language: Option<seq<string>>,
    bounds: Option<BBox>,
    proximity: Option<Point>)

  /** The constructor's `options` object; an absent property is `None`. */
  datatype Options = Options(
    key: Option<string>,
    autocompleteWaitMs: Option<Num>,
    language: LanguageArg,
    bounds: Option<seq<JsValue>>,
    proximity: Option<seq<JsValue>>)

  const EmptyOptions := Options(None, None, NoLanguage, None, None)

  predicate Longitude(x: real) {
    -180.0 <= x <= 180.0
  }

  predicate Latitude(y: real) {
    -90.0 <= y <= 90.0
  }

  /** The bounding-box invariant: coordinates in range and min <= max on both axes. */
  predicate ValidBBox(b: BBox) {
    && Longitude(b.minLon) && Latitude(b.minLat)
    && Longitude(b.maxLon) && Latitude(b.maxLat)
    && b.minLon <= b.maxLon && b.minLat <= b.maxLat
  }

  /** The proximity invariant: a longitude and a latitude in range. */
  predicate ValidPoint(p: Point) {
    Longitude(p.lon) && Latitude(p.lat)
  }

  /** What a constructed geocoder always satisfies. */
  predicate Valid(g: Geocoder) {
    && g.key != []
    && (g.language.Some? ==> forall c :: c in g.language.value ==> IsValidLanguage(c))
    && (g.bounds.Some? ==> ValidBBox(g.bounds.value))
    && (g.proximity.Some? ==> ValidPoint(g.proximity.value))
  }

  // ---------------------------------------------------------------- language

  /** Whether `if (language)` takes the validating branch: an array always does,
      a string unless it is empty. */
  predicate LanguageTruthy(arg: LanguageArg) {
    match arg
    case NoLanguage => false
    case Code(c) => StringTruthy(c)
    case Codes(_) => true
  }

  /** JavaScript truthiness of a language argument: every array is truthy, the
      empty one included, and the only falsy arguments are a missing language and
      the empty string. */
  lemma LanguageTruthiness(arg: LanguageArg)
    ensures arg.Codes? ==> LanguageTruthy(arg)
    ensures LanguageTruthy(arg) <==> !(arg.NoLanguage? || arg == Code([]))
  {
  }

  /** The list `setLanguage` works on: a lone code becomes a one-element list. */
  function AsList(arg: LanguageArg): (r: seq<string>)
    requires LanguageTruthy(arg)
    ensures arg.Code? ==> r == [arg.code]
    ensures arg.Codes? ==> r == arg.codes
  {
    match arg
    case Code(c) => [c]
    case Codes(cs) => cs
  }

  /** `language.filter(l => VALID_LANGUAGES.indexOf(l) == -1)`: the codes that are
      not on the allow-list, in input order, repetitions kept. */
  function InvalidCodes(codes: seq<string>): (r: seq<string>)
    ensures forall c :: c in r <==> c in codes && !IsValidLanguage(c)
    ensures |r| <= |codes|
    decreases |codes|
  {
    if |codes| == 0 then []
    else (if IsValidLanguage(codes[0]) then [] else [codes[0]]) + InvalidCodes(codes[1..])
  }

  /** The filter keeps order: filtering a concatenation concatenates the filtered parts. */
  lemma {:induction false} InvalidCodesAppend(a: seq<string>, b: seq<string>)
    ensures InvalidCodes(a + b) == InvalidCodes(a) + InvalidCodes(b)
    decreases |a|
  {
    if |a| == 0 {
      assert a + b == b;
    } else {
      var x, t := a[0], a[1..];
      assert a == [x] + t;
      assert a + b == [x] + (t + b);
      InvalidCodesCons(x, t);
      InvalidCodesCons(x, t + b);
      InvalidCodesAppend(t, b);
      ConcatAssoc(if IsValidLanguage(x) then [] else [x], InvalidCodes(t), InvalidCodes(b));
    }
  }

  /** One step of the filter: the first code is reported when it is invalid. */
  lemma InvalidCodesCons(x: string, rest: seq<string>)
    ensures InvalidCodes([x] + rest) == (if IsValidLanguage(x) then [] else [x]) + InvalidCodes(rest)
  {
    assert ([x] + rest)[0] == x;
    assert ([x] + rest)[1..] == rest;
  }

  /** No code is reported exactly when every code is on the allow-list. */
  lemma InvalidCodesEmpty(codes: seq<string>)
    ensures InvalidCodes(codes) == [] <==> forall c :: c in codes ==> IsValidLanguage(c)
  {
    var r := InvalidCodes(codes);
    if r != [] {
      assert r[0] in r;
    }
  }

  /** The condition under which `setLanguage` returns normally. */
  predicate LanguageAccepted(arg: LanguageArg) {
    !LanguageTruthy(arg) || forall c :: c in AsList(arg) ==> IsValidLanguage(c)
  }

  /** `setLanguage(language)`. A falsy argument is stored as it is, without
      validation. Otherwise the codes are checked against the allow-list: any code
      missing from it makes the call throw, naming every such code in input order;
      else the list (a lone code wrapped) is stored. No other field changes. */
  function SetLanguage(g: Geocoder, arg: LanguageArg): (r: Result<Geocoder, Error>)
    ensures r.Success? <==> LanguageAccepted(arg)
    ensures r.Failure? ==> r.error.message == InvalidLanguagePrefix + Join(InvalidCodes(AsList(arg)), ", ")
    ensures r.Success? ==> r.value == g.(language := r.value.language)
    ensures r.Success? && !LanguageTruthy(arg) ==> r.value.language.None?
    ensures r.Success? && arg.Code? && LanguageTruthy(arg) ==> r.value.language == Some([arg.code])
    ensures r.Success? && arg.Codes? ==> r.value.language == Some(arg.codes)
    ensures Valid(g) && r.Success? ==> Valid(r.value)
  {
    if !LanguageTruthy(arg) then
      Success(g.(language := None))
    else
      var codes := AsList(arg);
      var invalids := InvalidCodes(codes);
      InvalidCodesEmpty(codes);
      if |invalids| != 0 then
        Failure(Error(InvalidLanguagePrefix + Join(invalids, ", ")))
      else
        Success(g.(language := Some(codes)))
  }

  // ------------------------------------------------------------------ bounds

  /** `values.map(n => parseFloat(n))`. */
  function ParseAll(values: seq<JsValue>, parseText: string -> Num): (r: seq<Num>)
    ensures |r| == |values|
    ensures forall i :: 0 <= i < |values| ==> r[i] == ParseFloat(values[i], parseText)
  {
    seq(|values|, i requires 0 <= i < |values| => ParseFloat(values[i], parseText))
  }

  /** The box four parsed numbers describe, when all four are finite. */
  function AsBBox(ns: seq<Num>): (r: Option<BBox>)
    requires |ns| == 4
    ensures r.Some? <==> forall i :: 0 <= i < 4 ==> ns[i].Finite?
    ensures r.Some? ==> r.value.Coordinates() == [ns[0].value, ns[1].value, ns[2].value, ns[3].value]
  {
    if ns[0].Finite? && ns[1].Finite? && ns[2].Finite? && ns[3].Finite? then
      Some(BBox(ns[0].value, ns[1].value, ns[2].value, ns[3].value))
    else
      None
  }

  /** The condition under which `setBounds` returns normally, on the real numbers:
      absent, or four values that parse to a finite box satisfying the invariant. */
  predicate BoundsAccepted(arg: Option<seq<JsValue>>, parseText: string -> Num) {
    || arg.None?
    || (&& |arg.value| == 4
        && var b := AsBBox(ParseAll(arg.value, parseText));
           b.Some? && ValidBBox(b.value))
  }

  /** The guard `setBounds` throws on, written with JavaScript's comparisons. */
  predicate BoundsRejected(b: seq<Num>): (r: bool)
    requires |b| == 4
    ensures r <==> !(AsBBox(b).Some? && ValidBBox(AsBBox(b).value))
  {
    || IsNaN(b[0]) || IsNaN(b[1])
    || IsNaN(b[2]) || IsNaN(b[3])
    || Less(b[0], Finite(-180.0)) || Greater(b[0], Finite(180.0))
    || Less(b[1], Finite(-90.0)) || Greater(b[1], Finite(90.0))
    || Less(b[2], Finite(-180.0)) || Greater(b[2], Finite(180.0))
    || Less(b[3], Finite(-90.0)) || Greater(b[3], Finite(90.0))
    || Greater(b[0], b[2]) || Greater(b[1], b[3])
  }

  /** `setBounds(bbox)`. Null is stored as it is. Otherwise the call throws
      "Invalid bounds" unless there are exactly four values whose parsed numbers
      form a valid box (NaN and the infinities never do); the parsed numbers are
      what is stored. No other field changes. */
  function SetBounds(g: Geocoder, arg: Option<seq<JsValue>>, parseText: string -> Num): (r: Result<Geocoder, Error>)
    ensures r.Success? <==> BoundsAccepted(arg, parseText)
    ensures r.Failure? ==> r.error == Error(InvalidBoundsMessage)
    ensures r.Success? ==> r.value == g.(bounds := r.value.bounds)
    ensures r.Success? && arg.None? ==> r.value.bounds.None?
    ensures r.Success? && arg.Some? ==>
              && r.value.bounds.Some?
              && r.value.bounds.value.Coordinates() == seq(4, i requires 0 <= i < 4 => ParseFloat(arg.value[i], parseText).value)
    ensures Valid(g) && r.Success? ==> Valid(r.value)
  {
    match arg
    case None => Success(g.(bounds := None))
    case Some(values) =>
      if |values| != 4 then
        Failure(Error(InvalidBoundsMessage))
      else
        var b := ParseAll(values, parseText);
        if BoundsRejected(b) then
          Failure(Error(InvalidBoundsMessage))
        else
          Success(g.(bounds := Some(BBox(b[0].value, b[1].value, b[2].value, b[3].value))))
  }

  // --------------------------------------------------------------- proximity

  /** The point two parsed numbers describe, when both are finite. */
  function AsPoint(ns: seq<Num>): (r: Option<Point>)
    requires |ns| == 2
    ensures r.Some? <==> ns[0].Finite? && ns[1].Finite?
    ensures r.Some? ==> r.value.Coordinates() == [ns[0].value, ns[1].value]
  {
    if ns[0].Finite? && ns[1].Finite? then Some(Point(ns[0].value, ns[1].value)) else None
  }

  /** The condition under which `setProximity` returns normally, on the real numbers. */
  predicate ProximityAccepted(arg: Option<seq<JsValue>>, parseText: string -> Num) {
    || arg.None?
    || (&& |arg.value| == 2
        && var p := AsPoint(ParseAll(arg.value, parseText));
           p.Some? && ValidPoint(p.value))
  }

  /** The guard `setProximity` throws "Invalid proximity value" on. */
  predicate ProximityRejected(p: seq<Num>): (r: bool)
    requires |p| == 2
    ensures r <==> !(AsPoint(p).Some? && ValidPoint(AsPoint(p).value))
  {
    || IsNaN(p[0]) || IsNaN(p[1])
    || Less(p[0], Finite(-180.0)) || Greater(p[0], Finite(180.0))
    || Less(p[1], Finite(-90.0)) || Greater(p[1], Finite(90.0))
  }

  /** `setProximity(point)`. Null is stored as it is. A wrong number of values
      throws "Invalid proximity syntax"; two values whose parsed numbers are not a
      valid point throw "Invalid proximity value"; otherwise the parsed pair is
      stored. No other field changes. */
  function SetProximity(g: Geocoder, arg: Option<seq<JsValue>>, parseText: string -> Num): (r: Result<Geocoder, Error>)
    ensures r.Success? <==> ProximityAccepted(arg, parseText)
    ensures r.Failure? ==>
              && arg.Some?
              && r.error == Error(if |arg.value| != 2 then InvalidProximitySyntaxMessage else InvalidProximityValueMessage)
    ensures r.Success? ==> r.value == g.(proximity := r.value.proximity)
    ensures r.Success? && arg.None? ==> r.value.proximity.None?
    ensures r.Success? && arg.Some? ==>
              && r.value.proximity.Some?
              && r.value.proximity.value.Coordinates() == [ParseFloat(arg.value[0], parseText).value, ParseFloat(arg.value[1], parseText).value]
    ensures Valid(g) && r.Success? ==> Valid(r.value)
  {
    match arg
    case None => Success(g.(proximity := None))
    case Some(values) =>
      if |values| != 2 then
        Failure(Error(InvalidProximitySyntaxMessage))
      else
        var p := ParseAll(values, parseText);
        if ProximityRejected(p) then
          Failure(Error(InvalidProximityValueMessage))
        else
          Success(g.(proximity := Some(Point(p[0].value, p[1].value))))
  }

  // ------------------------------------------------------------- constructor

  /** Whether `options.key` passes `if (!this.key_)`. */
  predicate KeyProvided(o: Options) {
    o.key.Some? && StringTruthy(o.key.value)
  }

  /** `!this.key_` is false exactly for a key that is given and not empty. */
  lemma KeyProvidedMeansNonEmpty(o: Options)
    ensures KeyProvided(o) <==> o.key.Some? && |o.key.value| > 0
  {
  }

  /** `options.autocompleteWaitMs || 500`. */
  function WaitMs(o: Options): (r: Num)
    ensures NumTruthy(r)
    ensures o.autocompleteWaitMs.Some? && NumTruthy(o.autocompleteWaitMs.value) ==> r == o.autocompleteWaitMs.value
    ensures !(o.autocompleteWaitMs.Some? && NumTruthy(o.autocompleteWaitMs.value)) ==> r == DefaultAutocompleteWaitMs
  {
    if o.autocompleteWaitMs.Some? && NumTruthy(o.autocompleteWaitMs.value) then o.autocompleteWaitMs.value
    else DefaultAutocompleteWaitMs
  }

  /** `options.language || null`. */
  function LanguageOrNull(arg: LanguageArg): (r: LanguageArg)
    ensures LanguageTruthy(r) <==> LanguageTruthy(arg)
    ensures LanguageTruthy(arg) ==> r == arg
  {
    if LanguageTruthy(arg) then arg else NoLanguage
  }

  /** `|| null` in front of `setLanguage` is invisible: every falsy argument is
      stored alike, so the call has the same outcome with or without it. */
  lemma OrNullIsInvisible(g: Geocoder, arg: LanguageArg)
    ensures SetLanguage(g, LanguageOrNull(arg)) == SetLanguage(g, arg)
  {
  }

  /** `new Geocoder(options)`, leaving out the input binding. A missing or empty key
      throws "No key provided." before anything else is looked at. Otherwise the
      language, bounds and proximity options go through the setters in that order
      and the first setter that throws makes the constructor throw its error. */
  function New(options: Option<Options>, parseText: string -> Num): (r: Result<Geocoder, Error>)
    ensures !KeyProvided(options.GetOr(EmptyOptions)) ==> r == Failure(Error(NoKeyMessage))
    ensures r.Success? <==>
              var o := options.GetOr(EmptyOptions);
              && KeyProvided(o)
              && LanguageAccepted(o.language)
              && BoundsAccepted(o.bounds, parseText)
              && ProximityAccepted(o.proximity, parseText)
    ensures r.Success? ==>
              && Valid(r.value)
              && r.value.key == options.value.key.value
              && r.value.autocompleteWaitMs == WaitMs(options.value)
    // what the three setters store, in the source's order language, bounds, proximity
    ensures r.Success? ==>
              var o := options.value;
              && r.value.language == (if LanguageTruthy(o.language) then Some(AsList(o.language)) else None)
              && (o.bounds.None? ==> r.value.bounds.None?)
              && (o.bounds.Some? ==>
                    && r.value.bounds.Some?
                    && r.value.bounds.value.Coordinates()
                       == seq(4, i requires 0 <= i < 4 => ParseFloat(o.bounds.value[i], parseText).value))
              && (o.proximity.None? ==> r.value.proximity.None?)
              && (o.proximity.Some? ==>
                    && r.value.proximity.Some?
                    && r.value.proximity.value.Coordinates()
                       == [ParseFloat(o.proximity.value[0], parseText).value, ParseFloat(o.proximity.value[1], parseText).value])
    // the first setter that throws decides the error
    ensures var o := options.GetOr(EmptyOptions);
            KeyProvided(o) && !LanguageAccepted(o.language) ==>
              r == Failure(Error(InvalidLanguagePrefix + Join(InvalidCodes(AsList(o.language)), ", ")))
    ensures var o := options.GetOr(EmptyOptions);
            KeyProvided(o) && LanguageAccepted(o.language) && !BoundsAccepted(o.bounds, parseText) ==>
              r == Failure(Error(InvalidBoundsMessage))
    ensures var o := options.GetOr(EmptyOptions);
            KeyProvided(o) && LanguageAccepted(o.language) && BoundsAccepted(o.bounds, parseText)
            && !ProximityAccepted(o.proximity, parseText) ==>
              r == Failure(Error(if |o.proximity.value| != 2 then InvalidProximitySyntaxMessage
                                 else InvalidProximityValueMessage))
  {
    var o := options.GetOr(EmptyOptions);
    if !KeyProvided(o) then
      Failure(Error(NoKeyMessage))
    else
      var g0 := Geocoder(o.key.value, WaitMs(o), None, None, None);
      var g1 :- SetLanguage(g0, LanguageOrNull(o.language));
      var g2 :- SetBounds(g1, o.bounds, parseText);
      SetProximity(g2, o.proximity, parseText)
  }

  // ---------------------------------------------------------------- lifetime

  /** A setter call a client may make on a constructed geocoder. */
  datatype Call =
    | SetLanguageCall(language: LanguageArg)
    | SetBoundsCall(bbox: Option<seq<JsValue>>)
    | SetProximityCall(point: Option<seq<JsValue>>)

  /** The geocoder after one call, whether the call returned or threw. */
  function Apply(g: Geocoder, call: Call, parseText: string -> Num): (r: Geocoder)
    ensures call.SetLanguageCall? ==> r == g.(language := r.language)
    ensures call.SetBoundsCall? ==> r == g.(bounds := r.bounds)
    ensures call.SetProximityCall? ==> r == g.(proximity := r.proximity)
  {
    var outcome := match call
      case SetLanguageCall(language) => SetLanguage(g, language)
      case SetBoundsCall(bbox) => SetBounds(g, bbox, parseText)
      case SetProximityCall(point) => SetProximity(g, point, parseText);
    if outcome.Success? then outcome.value else g
  }

  /** The geocoder after a sequence of calls. No setter touches the key or the
      autocomplete wait, so both stay as constructed for the object's lifetime. */
  function Run(g: Geocoder, calls: seq<Call>, parseText: string -> Num): (r: Geocoder)
    ensures r.key == g.key && r.autocompleteWaitMs == g.autocompleteWaitMs
    decreases |calls|
  {
    if |calls| == 0 then g else Run(Apply(g, calls[0], parseText), calls[1..], parseText)
  }

  /** Calls made in two stretches act like the same calls made in one. */
  lemma {:induction false} RunAppend(g: Geocoder, a: seq<Call>, b: seq<Call>, parseText: string -> Num)
    ensures Run(g, a + b, parseText) == Run(Run(g, a, parseText), b, parseText)
    decreases |a|
  {
    if |a| == 0 {
      assert a + b == b;
    } else {
      assert (a + b)[0] == a[0];
      assert (a + b)[1..] == a[1..] + b;
      RunAppend(Apply(g, a[0], parseText), a[1..], b, parseText);
    }
  }

  /** A setter that throws leaves the whole geocoder as it was. */
  lemma ThrowLeavesStateUnchanged(g: Geocoder, call: Call, parseText: string -> Num)
    requires match call
             case SetLanguageCall(language) => !LanguageAccepted(language)
             case SetBoundsCall(bbox) => !BoundsAccepted(bbox, parseText)
             case SetProximityCall(point) => !ProximityAccepted(point, parseText)
    ensures Apply(g, call, parseText) == g
  {
  }

  /** Whatever setters a client calls, in whatever order, and whether they throw or
      not, a valid geocoder stays valid. */
  lemma {:induction false} RunPreservesValid(g: Geocoder, calls: seq<Call>, parseText: string -> Num)
    requires Valid(g)
    ensures Valid(Run(g, calls, parseText))
    decreases |calls|
  {
    if |calls| > 0 {
      RunPreservesValid(Apply(g, calls[0], parseText), calls[1..], parseText);
    }
  }
}
