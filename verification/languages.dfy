/** The allow-list of language codes the geocoder accepts: the ISO 639-1 two-letter
    codes, in alphabetical order (184 of them). The list is written in runs by first
    letter; concatenated, the runs give the geocoder's table in its own order. */
module Languages {
  import opened Strings

  /** A lower-case ASCII letter. */
  predicate Lower(c: char) {
    'a' <= c <= 'z'
  }

  /** The shape every entry of the table has: two lower-case letters. */
  type LanguageCode = s: string | |s| == 2 && Lower(s[0]) && Lower(s[1]) witness "aa"

  const CodesA: seq<LanguageCode> := ["aa", "ab", "ae", "af", "ak", "am", "an", "ar", "as", "av", "ay", "az"]
  const CodesB: seq<LanguageCode> := ["ba", "be", "bg", "bh", "bi", "bm", "bn", "bo", "br", "bs"]
  const CodesC: seq<LanguageCode> := ["ca", "ce", "ch", "co", "cr", "cs", "cu", "cv", "cy"]
  const CodesD: seq<LanguageCode> := ["da", "de", "dv", "dz"]
  const CodesE: seq<LanguageCode> := ["ee", "el", "en", "eo", "es", "et", "eu"]
  const CodesF: seq<LanguageCode> := ["fa", "ff", "fi", "fj", "fo", "fr", "fy"]
  const CodesG: seq<LanguageCode> := ["ga", "gd", "gl", "gn", "gu", "gv"]
  const CodesH: seq<LanguageCode> := ["ha", "he", "hi", "ho", "hr", "ht", "hu", "hy", "hz"]
  const CodesI: seq<LanguageCode> := ["ia", "id", "ie", "ig", "ii", "ik", "io", "is", "it", "iu"]
  const CodesJ: seq<LanguageCode> := ["ja", "jv"]
  const CodesK: seq<LanguageCode> := ["ka", "kg", "ki", "kj", "kk", "kl", "km", "kn", "ko", "kr", "ks", "ku", "kv", "kw", "ky"]
  const CodesL: seq<LanguageCode> := ["la", "lb", "lg", "li", "ln", "lo", "lt", "lu", "lv"]
  const CodesM: seq<LanguageCode> := ["mg", "mh", "mi", "mk", "ml", "mn", "mr", "ms", "mt", "my"]
  const CodesN: seq<LanguageCode> := ["na", "nb", "nd", "ne", "ng", "nl", "nn", "no", "nr", "nv", "ny"]
  const CodesO: seq<LanguageCode> := ["oc", "oj", "om", "or", "os"]
  const CodesP: seq<LanguageCode> := ["pa", "pi", "pl", "ps", "pt"]
  const CodesQ: seq<LanguageCode> := ["qu"]
  const CodesR: seq<LanguageCode> := ["rm", "rn", "ro", "ru", "rw"]
  const CodesS: seq<LanguageCode> := ["sa", "sc", "sd", "se", "sg", "si", "sk", "sl", "sm", "sn", "so", "sq", "sr", "ss", "st", "su", "sv", "sw"]
  const CodesT: seq<LanguageCode> := ["ta", "te", "tg", "th", "ti", "tk", "tl", "tn", "to", "tr", "ts", "tt", "tw", "ty"]
  const CodesU: seq<LanguageCode> := ["ug", "uk", "ur", "uz"]
  const CodesV: seq<LanguageCode> := ["ve", "vi", "vo"]
  const CodesW: seq<LanguageCode> := ["wa", "wo"]
  const CodesX: seq<LanguageCode> := ["xh"]
  const CodesY: seq<LanguageCode> := ["yi", "yo"]
  const CodesZ: seq<LanguageCode> := ["za", "zh", "zu"]

  /** `VALID_LANGUAGES`, in the geocoder's order. */
  const ValidLanguages: seq<LanguageCode> :=
    CodesA + CodesB + CodesC + CodesD + CodesE + CodesF + CodesG + CodesH + CodesI
    + CodesJ + CodesK + CodesL + CodesM + CodesN + CodesO + CodesP + CodesQ + CodesR
    + CodesS + CodesT + CodesU + CodesV + CodesW + CodesX + CodesY + CodesZ

  /** `VALID_LANGUAGES.indexOf(code) != -1`: the code is an entry of the table. */
  predicate IsValidLanguage(code: string): (r: bool)
    ensures r <==> code in ValidLanguages
  {
    IndexOf(ValidLanguages, code) != -1
  }

  /** Every accepted code is two lower-case letters, so it never holds the comma
      that separates codes in the URL, nor the ampersand that separates parameters,
      nor the `#` and `%` a URL reader treats specially. */
  lemma ValidLanguageShape(code: string)
    ensures IsValidLanguage(code) ==> |code| == 2 && Lower(code[0]) && Lower(code[1])
    ensures IsValidLanguage(code) ==> ',' !in code && '&' !in code && '#' !in code && '%' !in code
  {
    if IsValidLanguage(code) {
      MemberShape(ValidLanguages, code);
    }
  }

  /** Any member of a list of codes has the shape of a code. */
  lemma MemberShape(table: seq<LanguageCode>, code: string)
    requires code in table
    ensures |code| == 2 && Lower(code[0]) && Lower(code[1])
    ensures ',' !in code && '&' !in code && '#' !in code && '%' !in code
  {
    var i :| 0 <= i < |table| && table[i] == code;
    var entry: LanguageCode := table[i];
    CodeShape(entry);
  }

  /** Two lower-case letters hold neither separator, nor `#` or `%`. */
  lemma CodeShape(code: LanguageCode)
    ensures ',' !in code && '&' !in code && '#' !in code && '%' !in code
  {
    assert code == [code[0], code[1]];
  }
}
