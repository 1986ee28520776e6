/** Concrete cases of the geocoder's behaviour, each stated for every way of
    turning numbers into text where the number format does not matter. */
module Scenarios {
  import opened Wrappers
  import opened Strings
  import opened JsValues
  import opened UriEncoding
  import opened Languages
  import opened Geocoding
  import opened QueryUrl

  /** A geocoder with key "abc" and nothing else set. */
  const Plain := Geocoder("abc", DefaultAutocompleteWaitMs, None, None, None)

  /** A JavaScript array of finite numbers. */
  function Numbers(xs: seq<real>): (r: seq<JsValue>)
    ensures |r| == |xs|
    ensures forall i :: 0 <= i < |xs| ==> r[i] == JsNumber(Finite(xs[i]))
  {
    seq(|xs|, i requires 0 <= i < |xs| => JsNumber(Finite(xs[i])))
  }

  /** The fixed part of the URL for the query "Berlin" and the key "abc". */
  lemma BerlinHead(g: Geocoder)
    requires g.key == "abc"
    ensures Head(g, "Berlin") == BaseUrl + "Berlin" + ".json?key=abc"
  {
    BerlinEncoded();
    GroupSuffix(BaseUrl + "Berlin", Extension, "?key=", "abc");
    KeyAbcSuffix();
  }

  lemma KeyAbcSuffix()
    ensures Extension + "?key=" + "abc" == ".json?key=abc"
  {
    var t := Extension + "?key=" + "abc";
    assert |t| == 13;
    assert forall i :: 0 <= i < 13 ==> t[i] == ".json?key=abc"[i];
  }

  /** The text after `x`, grouped as one piece. */
  lemma GroupSuffix(x: string, a: string, b: string, c: string)
    ensures x + a + b + c == x + (a + b + c)
  {
  }

  /** A query of letters only is sent as it is. */
  lemma BerlinEncoded()
    ensures EncodeUriComponent("Berlin") == "Berlin"
  {
    var q := "Berlin";
    assert forall i :: 0 <= i < |q| ==> Unreserved(q[i]);
  }

  lemma BerlinUrl(numToString: real -> string)
    ensures GetQueryUrl(Plain, "Berlin", numToString) == BaseUrl + "Berlin" + ".json?key=abc"
  {
    BerlinHead(Plain);
  }

  lemma SpaceIsPercentTwenty()
    ensures EncodeUriComponent("a b") == "a%20b"
  {
    assert EncodeUriComponent("b") == "b";
    assert EncodeChar(' ') == "%20";
  }

  lemma MissingKeyThrows(parseText: string -> Num)
    ensures New(None, parseText) == Failure(Error(NoKeyMessage))
    ensures New(Some(EmptyOptions.(key := Some(""), language := Code("xx"))), parseText) == Failure(Error(NoKeyMessage))
  {
  }

  lemma ZeroWaitBecomesDefault(parseText: string -> Num)
    ensures New(Some(EmptyOptions.(key := Some("abc"), autocompleteWaitMs := Some(Finite(0.0)))), parseText)
            == Success(Plain)
  {
  }

  lemma SingleLanguageStored()
    ensures SetLanguage(Plain, Code("en")) == Success(Plain.(language := Some(["en"])))
  {
    SampleMembership();
    assert InvalidCodes(["en"]) == [];
  }

  lemma SingleLanguage(numToString: real -> string)
    ensures GetQueryUrl(Plain.(language := Some(["en"])), "Berlin", numToString)
            == BaseUrl + "Berlin" + ".json?key=abc" + "&language=en"
  {
    var g := Plain.(language := Some(["en"]));
    BerlinHead(g);
    LanguageTextEn();
    UrlWithLanguage(g, "Berlin", numToString, BaseUrl + "Berlin" + ".json?key=abc", "&language=en");
  }

  lemma LanguageTextEn()
    ensures LanguageParam(Some(["en"])) == "&language=en"
  {
    assert Join(["en"], ",") == "en";
  }

  /** The URL of a geocoder with only a language set: its fixed part, then the
      language parameter. */
  lemma UrlWithLanguage(g: Geocoder, query: string, numToString: real -> string, head: string, language: string)
    requires Head(g, query) == head && LanguageParam(g.language) == language
    requires g.bounds.None? && g.proximity.None?
    ensures GetQueryUrl(g, query, numToString) == head + language
  {
  }

  lemma InvalidLanguagesNamed()
    ensures SetLanguage(Plain, Codes(["en", "english", "de", "EN"]))
            == Failure(Error(InvalidLanguagePrefix + ("english" + ", " + "EN")))
  {
    var codes := ["en", "english", "de", "EN"];
    SampleInvalidCodes();
    assert Join(["english", "EN"], ", ") == "english" + ", " + "EN";
    var r := SetLanguage(Plain, Codes(codes));
    assert !LanguageAccepted(Codes(codes)) by {
      assert "english" in AsList(Codes(codes));
    }
    assert r.error == Error(r.error.message);
  }

  /** Only the two codes that are not on the allow-list are reported, in order. */
  lemma SampleInvalidCodes()
    ensures InvalidCodes(["en", "english", "de", "EN"]) == ["english", "EN"]
  {
    SampleMembership();
    var codes := ["en", "english", "de", "EN"];
    assert InvalidCodes(codes[3..]) == ["EN"];
    assert InvalidCodes(codes[2..]) == ["EN"];
    assert InvalidCodes(codes[1..]) == ["english", "EN"];
  }

  /** "en" and "de" are on the allow-list; "english" and "EN" are not. */
  lemma SampleMembership()
    ensures IsValidLanguage("en") && IsValidLanguage("de")
    ensures !IsValidLanguage("english") && !IsValidLanguage("EN")
  {
    assert ValidLanguages[37] == "en";
    assert ValidLanguages[32] == "de";
    ValidLanguageShape("english");
    ValidLanguageShape("EN");
    assert !Lower('E');
  }

  lemma EmptyLanguageListStored()
    ensures SetLanguage(Plain, Codes([])) == Success(Plain.(language := Some([])))
  {
    assert InvalidCodes([]) == [];
  }

  lemma EmptyLanguageList(numToString: real -> string)
    ensures GetQueryUrl(Plain.(language := Some([])), "Berlin", numToString)
            == BaseUrl + "Berlin" + ".json?key=abc" + "&language="
  {
    var g := Plain.(language := Some([]));
    BerlinHead(g);
    assert LanguageParam(g.language) == "&language=" + [];
    UrlWithLanguage(g, "Berlin", numToString, BaseUrl + "Berlin" + ".json?key=abc", "&language=");
  }

  lemma EmptyStringClearsLanguage()
    ensures SetLanguage(Plain.(language := Some(["en"])), Code("")) == Success(Plain)
  {
  }

  lemma BoundsExamples(parseText: string -> Num)
    ensures SetBounds(Plain, Some(Numbers([-10.0, -5.0, 10.0, 5.0])), parseText)
            == Success(Plain.(bounds := Some(BBox(-10.0, -5.0, 10.0, 5.0))))
    ensures SetBounds(Plain, Some(Numbers([-200.0, 0.0, 10.0, 10.0])), parseText)
            == Failure(Error(InvalidBoundsMessage))
    ensures SetBounds(Plain, Some(Numbers([10.0, 0.0, -10.0, 10.0])), parseText)
            == Failure(Error(InvalidBoundsMessage))
    ensures SetBounds(Plain, Some(Numbers([1.0, 2.0, 3.0])), parseText)
            == Failure(Error(InvalidBoundsMessage))
    ensures SetBounds(Plain, Some([JsNumber(NegInf), JsNumber(Finite(0.0)), JsNumber(Finite(1.0)), JsNull]), parseText)
            == Failure(Error(InvalidBoundsMessage))
  {
  }

  lemma ProximityExamples(parseText: string -> Num)
    ensures SetProximity(Plain, Some(Numbers([13.4, 52.5])), parseText)
            == Success(Plain.(proximity := Some(Point(13.4, 52.5))))
    ensures SetProximity(Plain, Some(Numbers([200.0, 0.0])), parseText)
            == Failure(Error(InvalidProximityValueMessage))
    ensures SetProximity(Plain, Some(Numbers([0.0])), parseText)
            == Failure(Error(InvalidProximitySyntaxMessage))
  {
  }

  lemma AllParameters(numToString: real -> string)
    ensures GetQueryUrl(
              Plain.(language := Some(["en", "de"]),
                     bounds := Some(BBox(-1.0, -1.0, 1.0, 1.0)),
                     proximity := Some(Point(0.0, 0.0))),
              "Berlin", numToString)
            == BaseUrl + "Berlin" + ".json?key=abc"
               + "&language=en,de"
               + ("&bbox=" + (numToString(-1.0) + "," + numToString(-1.0) + "," + numToString(1.0) + "," + numToString(1.0)))
               + ("&proximity=" + (numToString(0.0) + "," + numToString(0.0)))
  {
    var g := Plain.(language := Some(["en", "de"]),
                    bounds := Some(BBox(-1.0, -1.0, 1.0, 1.0)),
                    proximity := Some(Point(0.0, 0.0)));
    BerlinHead(g);
    TwoLanguages();
    BoxText(numToString);
    PointText(numToString);
  }

  lemma TwoLanguages()
    ensures LanguageParam(Some(["en", "de"])) == "&language=en,de"
  {
    assert Join(["en", "de"], ",") == "en,de";
  }

  lemma BoxText(numToString: real -> string)
    ensures BoundsParam(Some(BBox(-1.0, -1.0, 1.0, 1.0)), numToString)
            == "&bbox=" + (numToString(-1.0) + "," + numToString(-1.0) + "," + numToString(1.0) + "," + numToString(1.0))
  {
    var bs := Format(BBox(-1.0, -1.0, 1.0, 1.0).Coordinates(), numToString);
    assert bs == [numToString(-1.0), numToString(-1.0), numToString(1.0), numToString(1.0)];
    assert Join(bs[3..], ",") == numToString(1.0);
    assert Join(bs[2..], ",") == numToString(1.0) + "," + numToString(1.0);
    assert Join(bs[1..], ",") == numToString(-1.0) + "," + numToString(1.0) + "," + numToString(1.0);
  }

  lemma PointText(numToString: real -> string)
    ensures ProximityParam(Some(Point(0.0, 0.0)), numToString)
            == "&proximity=" + (numToString(0.0) + "," + numToString(0.0))
  {
    var ps := Format(Point(0.0, 0.0).Coordinates(), numToString);
    assert ps == [numToString(0.0), numToString(0.0)];
    assert Join(ps[1..], ",") == numToString(0.0);
  }
}
