/**
  The request side of GoogleKeywordIdeas/get_keyword_ideas.py: the language
  lookup, the comma-string normalisation, the choice of the request's seed,
  the filter over geo-target suggestions, and the language fallback of the
  entry point. The Ads API is not modelled: what its calls return is input.
 */
module KeywordIdeas {
  import opened Wrappers
  import opened Text

  /** The location used when no geo name resolves (the United States). */
  const DefaultLocationIds: seq<string> := ["2840"]

  /** The language used when the given one is not in the table (English). */
  const DefaultLanguageId := 1000

  // ================================================================ get_lang_code

  datatype Language = Language(name: string, code: string, id: int)

  /**
    The static reference table, in its order. It is written as seven groups
    of consecutive entries so that the verifier can look entries up without
    indexing into one long display; English and Chinese (simplified) each
    start a group.
   */
  const LanguagesCodes: seq<Language> :=
    LanguageGroup0 + LanguageGroup1 + LanguageGroup2 + LanguageGroup3 + LanguageGroup4 + LanguageGroup5 + LanguageGroup6

  const LanguageGroup0: seq<Language> := [
    Language("Arabic", "ar", 1019),
    Language("Bengali", "bn", 1056),
    Language("Bulgarian", "bg", 1020),
    Language("Catalan", "ca", 1038)
  ]

  const LanguageGroup1: seq<Language> := [
    Language("Chinese (simplified)", "zh_CN", 1017),
    Language("Chinese (traditional)", "zh_TW", 1018),
    Language("Croatian", "hr", 1039),
    Language("Czech", "cs", 1021),
    Language("Danish", "da", 1009),
    Language("Dutch", "nl", 1010)
  ]

  const LanguageGroup2: seq<Language> := [
    Language("English", "en", 1000),
    Language("Estonian", "et", 1043),
    Language("Filipino", "tl", 1042),
    Language("Finnish", "fi", 1011),
    Language("French", "fr", 1002),
    Language("German", "de", 1001),
    Language("Greek", "el", 1022),
    Language("Gujarati", "gu", 1072)
  ]

  const LanguageGroup3: seq<Language> := [
    Language("Hebrew", "iw", 1027),
    Language("Hindi", "hi", 1023),
    Language("Hungarian", "hu", 1024),
    Language("Icelandic", "is", 1026),
    Language("Indonesian", "id", 1025),
    Language("Italian", "it", 1004),
    Language("Japanese", "ja", 1005),
    Language("Kannada", "kn", 1086)
  ]

  const LanguageGroup4: seq<Language> := [
    Language("Korean", "ko", 1012),
    Language("Latvian", "lv", 1028),
    Language("Lithuanian", "lt", 1029),
    Language("Malay", "ms", 1102),
    Language("Malayalam", "ml", 1098),
    Language("Marathi", "mr", 1101),
    Language("Norwegian", "no", 1013),
    Language("Persian", "fa", 1064)
  ]

  const LanguageGroup5: seq<Language> := [
    Language("Polish", "pl", 1030),
    Language("Portuguese", "pt", 1014),
    Language("Punjabi", "pa", 1110),
    Language("Romanian", "ro", 1032),
    Language("Russian", "ru", 1031),
    Language("Serbian", "sr", 1035),
    Language("Slovak", "sk", 1033),
    Language("Slovenian", "sl", 1034)
  ]

  const LanguageGroup6: seq<Language> := [
    Language("Spanish", "es", 1003),
    Language("Swedish", "sv", 1015),
    Language("Tamil", "ta", 1130),
    Language("Telugu", "te", 1131),
    Language("Thai", "th", 1044),
    Language("Turkish", "tr", 1037),
    Language("Ukrainian", "uk", 1036),
    Language("Urdu", "ur", 1041),
    Language("Vietnamese", "vi", 1040)
  ]

  /** One table entry matches the normalised input: by its code verbatim, its lower-cased name, or its id in decimal. */
  predicate LanguageMatches(e: Language, key: string) {
    e.code == key || Lower(e.name) == key || IntToString(e.id) == key
  }

  /** What the lookup compares against: `'en'` for a falsy input, the lower-cased input otherwise. */
  function LanguageKey(code: string): (key: string)
    ensures forall k :: 0 <= k < |key| ==> !IsUpper(key[k])
  {
    if code == "" then "en" else Lower(code)
  }

  /** The id of the first entry of `table`, in table order, that matches `key`. */
  function FindLanguage(table: seq<Language>, key: string): Option<int> {
    if table == [] then None
    else if LanguageMatches(table[0], key) then Some(table[0].id)
    else FindLanguage(table[1..], key)
  }

  /** The lookup fails exactly when no entry matches, and otherwise returns the id of the first entry that does. */
  lemma {:induction false} FindLanguageIsFirstMatch(table: seq<Language>, key: string)
    ensures FindLanguage(table, key).None? <==> forall k :: 0 <= k < |table| ==> !LanguageMatches(table[k], key)
    ensures FindLanguage(table, key).Some? ==>
              exists k :: && 0 <= k < |table| && LanguageMatches(table[k], key)
                          && FindLanguage(table, key).value == table[k].id
                          && forall m :: 0 <= m < k ==> !LanguageMatches(table[m], key)
  {
    if table != [] {
      FindLanguageIsFirstMatch(table[1..], key);
      assert forall k :: 1 <= k < |table| ==> table[k] == table[1..][k - 1];
      if !LanguageMatches(table[0], key) && FindLanguage(table, key).Some? {
        var k :| && 0 <= k < |table[1..]| && LanguageMatches(table[1..][k], key)
                 && FindLanguage(table[1..], key).value == table[1..][k].id
                 && forall m :: 0 <= m < k ==> !LanguageMatches(table[1..][m], key);
        assert table[k + 1] == table[1..][k];
      }
    }
  }

  /** One step of the scan: the entry at `i` answers, or the rest of the table does. */
  lemma FindLanguageFrom(table: seq<Language>, i: nat, key: string)
    requires i < |table|
    ensures FindLanguage(table[i..], key)
            == if LanguageMatches(table[i], key) then Some(table[i].id) else FindLanguage(table[i + 1..], key)
  {
    assert table[i..][1..] == table[i + 1..];
  }

  /** `get_lang_code`: scans the table in order and returns at the first entry that matches. */
  method GetLangCode(code: string) returns (id: Option<int>)
    ensures id == FindLanguage(LanguagesCodes, LanguageKey(code))
  {
    var key := LanguageKey(code);
    for i := 0 to |LanguagesCodes|
      invariant FindLanguage(LanguagesCodes[i..], key) == FindLanguage(LanguagesCodes, key)
    {
      var e := LanguagesCodes[i];
      FindLanguageFrom(LanguagesCodes, i, key);
      if e.code == key {
        return Some(e.id);
      }
      if Lower(e.name) == key {
        return Some(e.id);
      }
      if IntToString(e.id) == key {
        return Some(e.id);
      }
    }
    return None;
  }

  /** An entry whose code has an upper-case letter can never match by its code, whatever the input. */
  lemma MixedCaseCodeNeverMatchesByCode(code: string, e: Language, k: nat)
    requires k < |e.code| && IsUpper(e.code[k])
    ensures e.code != LanguageKey(code)
  {
  }

  /** The entry at `k` is found when it matches and no entry before it does. */
  lemma FirstMatchIsFound(table: seq<Language>, key: string, k: nat)
    requires k < |table| && LanguageMatches(table[k], key)
    requires forall m :: 0 <= m < k ==> !LanguageMatches(table[m], key)
    ensures FindLanguage(table, key) == Some(table[k].id)
  {
    FindLanguageIsFirstMatch(table, key);
    var j :| && 0 <= j < |table| && LanguageMatches(table[j], key)
             && FindLanguage(table, key).value == table[j].id
             && forall m :: 0 <= m < j ==> !LanguageMatches(table[m], key);
    assert j == k;
  }

  /**
    A test that is cheap to evaluate on a table entry and rules a match out:
    the name differs from the key in length or first letter, the code is not
    the key, and the id is not the key read as a number.
   */
  predicate PlainlyDifferent(e: Language, key: string) {
    && key != []
    && (|e.name| != |key| || LowerChar(e.name[0]) != key[0])
    && e.code != key
    && ((!IsDigit(key[0]) && key[0] != '-') || e.id != ParseInt(key))
  }

  lemma PlainlyDifferentDoesNotMatch(e: Language, key: string)
    requires PlainlyDifferent(e, key)
    ensures !LanguageMatches(e, key)
  {
    if IntToString(e.id) == key {
      IntToStringRoundTrip(e.id);
    }
  }

  lemma NotFoundWhenAllDiffer(table: seq<Language>, key: string)
    requires forall e :: e in table ==> PlainlyDifferent(e, key)
    ensures FindLanguage(table, key) == None
  {
    forall e | e in table ensures !LanguageMatches(e, key) {
      PlainlyDifferentDoesNotMatch(e, key);
    }
    FindLanguageIsFirstMatch(table, key);
  }

  lemma FoundAfterDifferentEntries(table: seq<Language>, key: string, k: nat)
    requires k < |table| && LanguageMatches(table[k], key)
    requires forall m :: 0 <= m < k ==> PlainlyDifferent(table[m], key)
    ensures FindLanguage(table, key) == Some(table[k].id)
  {
    forall m | 0 <= m < k ensures !LanguageMatches(table[m], key) {
      PlainlyDifferentDoesNotMatch(table[m], key);
    }
    FirstMatchIsFound(table, key, k);
  }

  /** `int("1017")`, needed to tell ids apart from the key "1017". */
  lemma ParseId1017()
    ensures IntToString(1017) == "1017"
    ensures ParseInt("1017") == 1017
  {
    assert IntToString(1017) == "1017";
    IntToStringRoundTrip(1017);
  }

  lemma LanguageGroup0Differs()
    ensures forall e :: e in LanguageGroup0 ==> e.id > 0
    ensures forall e :: e in LanguageGroup0 ==>
      && PlainlyDifferent(e, "en") && PlainlyDifferent(e, "zh_cn") && PlainlyDifferent(e, "zh_tw")
      && PlainlyDifferent(e, "1017")
  {
    ParseId1017();
  }

  lemma LanguageGroup1Differs()
    ensures forall e :: e in LanguageGroup1 ==> e.id > 0
    ensures forall e :: e in LanguageGroup1 ==> PlainlyDifferent(e, "zh_cn") && PlainlyDifferent(e, "zh_tw")
    ensures forall k :: 1 <= k < |LanguageGroup1| ==> PlainlyDifferent(LanguageGroup1[k], "en")
  {
  }

  lemma LanguageGroup2Differs()
    ensures forall e :: e in LanguageGroup2 ==> e.id > 0
    ensures forall e :: e in LanguageGroup2 ==> PlainlyDifferent(e, "zh_cn") && PlainlyDifferent(e, "zh_tw")
  {
  }

  lemma LanguageGroup3Differs()
    ensures forall e :: e in LanguageGroup3 ==> e.id > 0
    ensures forall e :: e in LanguageGroup3 ==> PlainlyDifferent(e, "zh_cn") && PlainlyDifferent(e, "zh_tw")
  {
  }

  lemma LanguageGroup4Differs()
    ensures forall e :: e in LanguageGroup4 ==> e.id > 0
    ensures forall e :: e in LanguageGroup4 ==> PlainlyDifferent(e, "zh_cn") && PlainlyDifferent(e, "zh_tw")
  {
  }

  lemma LanguageGroup5Differs()
    ensures forall e :: e in LanguageGroup5 ==> e.id > 0
    ensures forall e :: e in LanguageGroup5 ==> PlainlyDifferent(e, "zh_cn") && PlainlyDifferent(e, "zh_tw")
  {
  }

  lemma LanguageGroup6Differs()
    ensures forall e :: e in LanguageGroup6 ==> e.id > 0
    ensures forall e :: e in LanguageGroup6 ==> PlainlyDifferent(e, "zh_cn") && PlainlyDifferent(e, "zh_tw")
  {
  }

  /** A falsy language is looked up as English. */
  lemma EmptyLanguageIsEnglish()
    ensures FindLanguage(LanguagesCodes, LanguageKey("")) == Some(DefaultLanguageId)
  {
    assert LanguageKey("") == "en";
    LanguageGroup0Differs();
    LanguageGroup1Differs();
    TableHead();
    FoundAfterDifferentEntries(LanguagesCodes, "en", 10);
  }

  /** The codes `zh_CN` and `zh_TW` are lower-cased before the comparison, and so they match no entry. */
  lemma ChineseCodesDoNotResolve()
    ensures FindLanguage(LanguagesCodes, LanguageKey("zh_CN")) == None
    ensures FindLanguage(LanguagesCodes, LanguageKey("zh_TW")) == None
  {
    ChineseKeys();
    LanguageGroup0Differs();
    LanguageGroup1Differs();
    LanguageGroup2Differs();
    LanguageGroup3Differs();
    LanguageGroup4Differs();
    LanguageGroup5Differs();
    LanguageGroup6Differs();
    NotFoundWhenAllDiffer(LanguagesCodes, "zh_cn");
    NotFoundWhenAllDiffer(LanguagesCodes, "zh_tw");
  }

  lemma ChineseKeys()
    ensures LanguageKey("zh_CN") == "zh_cn"
    ensures LanguageKey("zh_TW") == "zh_tw"
  {
    var cn := LanguageKey("zh_CN");
    assert forall k :: 0 <= k < 5 ==> cn[k] == "zh_cn"[k];
    var tw := LanguageKey("zh_TW");
    assert forall k :: 0 <= k < 5 ==> tw[k] == "zh_tw"[k];
  }

  /** Chinese (simplified) is still found by its id in decimal. */
  lemma SimplifiedChineseResolvesById()
    ensures FindLanguage(LanguagesCodes, LanguageKey("1017")) == Some(1017)
  {
    assert LanguageKey("1017") == "1017";
    LanguageGroup0Differs();
    ParseId1017();
    TableHead();
    FoundAfterDifferentEntries(LanguagesCodes, "1017", 4);
  }

  /** Where the first groups sit in the table, and its entries at 4 and 10. */
  lemma TableHead()
    ensures |LanguagesCodes| > 10
    ensures forall m :: 0 <= m < 4 ==> LanguagesCodes[m] == LanguageGroup0[m]
    ensures forall m :: 4 <= m < 10 ==> LanguagesCodes[m] == LanguageGroup1[m - 4]
    ensures LanguagesCodes[4] == Language("Chinese (simplified)", "zh_CN", 1017)
    ensures LanguagesCodes[10] == Language("English", "en", 1000)
  {
  }

  /** Every id in the table is a positive number, so a found id is never falsy. */
  lemma LanguageIdsArePositive()
    ensures forall k :: 0 <= k < |LanguagesCodes| ==> LanguagesCodes[k].id > 0
  {
    LanguageGroup0Differs();
    LanguageGroup1Differs();
    LanguageGroup2Differs();
    LanguageGroup3Differs();
    LanguageGroup4Differs();
    LanguageGroup5Differs();
    LanguageGroup6Differs();
    forall k | 0 <= k < |LanguagesCodes| ensures LanguagesCodes[k].id > 0 {
      assert LanguagesCodes[k] in LanguagesCodes;
    }
  }

  // ================================================================ get_keyword_ideas: language fallback

  /**
    `lang = get_lang_code(lang) or (None if with_null_lang == True else DEFAULT_LANGUAGE_ID)`:
    the looked-up id, or else nothing or English.
   */
  method ResolveLanguage(lang: string, withNullLang: bool) returns (id: Option<int>)
    ensures var found := FindLanguage(LanguagesCodes, LanguageKey(lang));
            && (found.Some? ==> id == found)
            && (found.None? ==> id == if withNullLang then None else Some(DefaultLanguageId))
    ensures !withNullLang ==> id.Some?
    ensures lang == "" ==> id == Some(DefaultLanguageId)
  {
    var found := GetLangCode(lang);
    if found.Some? {
      FindLanguageIsFirstMatch(LanguagesCodes, LanguageKey(lang));
      LanguageIdsArePositive();
    }
    if found.Some? && found.value != 0 {
      id := found;
    } else if withNullLang {
      id := None;
    } else {
      id := Some(DefaultLanguageId);
    }
    if lang == "" {
      EmptyLanguageIsEnglish();
    }
  }

  // ================================================================ comma-separated arguments

  /** `[t.strip() for t in s.split(',')]`: the stripped pieces, in order, duplicates kept. */
  function CommaTerms(s: string): (r: seq<string>)
    ensures |r| >= 1
    ensures forall k :: 0 <= k < |r| ==> Stripped(r[k]) && ',' !in r[k]
  {
    StripAllAvoids(Split(s, ','), ',');
    StripAll(Split(s, ','))
  }

  /** Keywords given as one string (line 64): the set of its stripped comma-separated pieces. */
  function NormaliseKeywords(s: string): (r: set<string>)
    ensures r != {}
    ensures forall x :: x in r ==> Stripped(x) && ',' !in x
  {
    var terms := CommaTerms(s);
    var r := set x | x in terms;
    assert terms[0] in r;
    r
  }

  /** Geo names given as one string (line 133): the set of its stripped, upper-cased comma-separated pieces. */
  function NormaliseGeoNames(s: string): (r: set<string>)
    ensures r != {}
    ensures forall x :: x in r ==> ',' !in x && forall k :: 0 <= k < |x| ==> !IsLower(x[k])
  {
    var terms := CommaTerms(s);
    UpperAllAvoid(terms, ',');
    var r := set x | x in terms :: Upper(x);
    assert terms[0] in terms;
    assert Upper(terms[0]) in r;
    r
  }

  lemma UpperAllAvoid(terms: seq<string>, c: char)
    requires !IsUpper(c)
    requires forall k :: 0 <= k < |terms| ==> c !in terms[k]
    ensures forall x :: x in terms ==> c !in Upper(x)
  {
    forall x | x in terms ensures c !in Upper(x) {
      UpperAvoids(x, c);
    }
  }

  /** Keywords written as a `", "`-separated list normalise to the set of those keywords. */
  lemma NormaliseKeywordsOfJoin(terms: seq<string>)
    requires |terms| >= 1
    requires forall k :: 0 <= k < |terms| ==> Stripped(terms[k]) && ',' !in terms[k]
    ensures NormaliseKeywords(Join(terms, ", ")) == set t | t in terms
  {
    SplitStripCommaSpaceJoin(terms);
  }

  /** Geo names written as a `", "`-separated list normalise to the set of those names, upper-cased. */
  lemma NormaliseGeoNamesOfCommaSpaceJoin(names: seq<string>)
    requires |names| >= 1
    requires forall k :: 0 <= k < |names| ==> Stripped(names[k]) && ',' !in names[k]
    ensures NormaliseGeoNames(Join(names, ", ")) == set n | n in names :: Upper(n)
  {
    SplitStripCommaSpaceJoin(names);
  }

  /** Upper-case codes written as a `","`-separated list normalise to the set of those codes. */
  lemma NormaliseGeoNamesOfJoin(codes: seq<string>)
    requires |codes| >= 1
    requires forall k :: 0 <= k < |codes| ==> Stripped(codes[k]) && ',' !in codes[k]
    requires forall k, j :: 0 <= k < |codes| && 0 <= j < |codes[k]| ==> !IsLower(codes[k][j])
    ensures NormaliseGeoNames(Join(codes, ",")) == set c | c in codes
  {
    SplitJoin(codes, ',');
    StripAllOfStripped(codes);
    forall k | 0 <= k < |codes| ensures Upper(codes[k]) == codes[k] {
      UpperOfUpperCase(codes[k]);
    }
    var names := NormaliseGeoNames(Join(codes, ","));
    forall c | c in codes ensures c in names {
      var k :| 0 <= k < |codes| && codes[k] == c;
      assert Upper(codes[k]) == c;
    }
  }

  // ================================================================ __get_ideas__: the request

  /** The `keywords` argument: absent, one comma-separated string, or a list. */
  datatype KeywordsArg = NoKeywords | KeywordText(text: string) | KeywordList(items: seq<string>)

  /** Python truthiness of the `keywords` argument. */
  predicate KeywordsGiven(k: KeywordsArg) {
    match k
    case NoKeywords => false
    case KeywordText(t) => t != ""
    case KeywordList(items) => items != []
  }

  /** Python truthiness of the `page_url` argument. */
  predicate UrlGiven(u: Option<string>) {
    u.Some? && u.value != ""
  }

  /**
    The seed keywords as the request receives them: a list as given, or the
    set a string was normalised to (its order in the request is not fixed).
   */
  datatype SeedKeywords = Listed(items: seq<string>) | Deduplicated(terms: set<string>)

  /** Line 64: a string becomes the set of its pieces, anything else stays as it is; truthiness is kept. */
  function NormaliseKeywordsArg(k: KeywordsArg): (r: Option<SeedKeywords>)
    ensures r.Some? <==> KeywordsGiven(k)
    ensures r.Some? ==> match r.value
                        case Listed(items) => items != []
                        case Deduplicated(terms) => terms != {}
    ensures k.KeywordText? && r.Some? ==> r.value.Deduplicated? && r.value.terms == NormaliseKeywords(k.text)
    ensures k.KeywordList? && r.Some? ==> r.value == Listed(k.items)
  {
    match k
    case NoKeywords => None
    case KeywordText(t) => if t == "" then None else Some(Deduplicated(NormaliseKeywords(t)))
    case KeywordList(items) => if items == [] then None else Some(Listed(items))
  }

  /** Exactly one seed field of the request is set. */
  datatype Seed =
    | UrlSeed(url: string)
    | KeywordSeed(keywords: SeedKeywords)
    | KeywordAndUrlSeed(url: string, keywords: SeedKeywords)

  datatype KeywordPlanNetwork = GoogleSearchAndPartners

  const LanguageConstantPrefix := "languageConstants/"

  /**
    The client library's `language_constant_path(id)`, which formats the id
    into `"languageConstants/{id}"`; Python formats `None` as `None`.
   */
  function LanguageConstantPath(id: Option<int>): (r: string)
    ensures |r| > |LanguageConstantPrefix| && r[..|LanguageConstantPrefix|] == LanguageConstantPrefix
  {
    LanguageConstantPrefix + (if id.Some? then IntToString(id.value) else "None")
  }

  /** The id reads back from the path of every language id. */
  lemma LanguageConstantPathRoundTrip(n: int)
    ensures ParseInt(LanguageConstantPath(Some(n))[|LanguageConstantPrefix|..]) == n
  {
    assert LanguageConstantPath(Some(n))[|LanguageConstantPrefix|..] == IntToString(n);
    IntToStringRoundTrip(n);
  }

  /**
    As written, line 47 passes the `None` of `with_null_lang` (line 199) to the
    path builder: the request then names `languageConstants/None`, which is the
    path of no language id, instead of leaving the language out.
   */
  lemma NullLanguagePathNamesNoLanguage()
    ensures LanguageConstantPath(None) == "languageConstants/None"
    ensures forall n :: LanguageConstantPath(Some(n)) != LanguageConstantPath(None)
  {
    forall n ensures LanguageConstantPath(Some(n)) != LanguageConstantPath(None) {
      assert LanguageConstantPath(Some(n))[|LanguageConstantPrefix|] == IntToString(n)[0];
      assert LanguageConstantPath(None)[|LanguageConstantPrefix|] == 'N';
    }
  }

  /**
    The request's language, corrected: the path of the resolved id, and no
    language at all when `with_null_lang` left none.
   */
  function RequestLanguage(id: Option<int>): (r: Option<string>)
    ensures r.None? <==> id.None?
    ensures r.Some? ==> r.value == LanguageConstantPath(id)
                        && ParseInt(r.value[|LanguageConstantPrefix|..]) == id.value
  {
    if id.Some? then
      LanguageConstantPathRoundTrip(id.value);
      Some(LanguageConstantPath(id))
    else None
  }

  /** The fields of `GenerateKeywordIdeasRequest` that the code sets. */
  datatype IdeasRequest = IdeasRequest(
    customerId: string,
    language: Option<string>,
    geoTargetConstants: seq<string>,
    includeAdultKeywords: bool,
    keywordPlanNetwork: KeywordPlanNetwork,
    keywordAnnotation: bool,
    seed: Seed)

  const NoSeedMessage := "At least one of keywords or page URL is required, but neither was specified."

  /**
    `__get_ideas__` up to the call of the service: the `ValueError` when
    neither keywords nor a page URL is given, and otherwise the request with
    the seed that fits what was given.
   */
  method GetIdeasRequest(customerId: string, geoTargets: seq<string>, languageId: Option<int>,
                         keywords: KeywordsArg, pageUrl: Option<string>, adult: bool, withAnnotations: bool)
    returns (r: Result<IdeasRequest, string>)
    ensures r.Failure? <==> !KeywordsGiven(keywords) && !UrlGiven(pageUrl)
    ensures r.Failure? ==> r.error == NoSeedMessage
    ensures r.Success? ==>
              && r.value.customerId == customerId
              && r.value.language == RequestLanguage(languageId)
              && r.value.geoTargetConstants == geoTargets
              && r.value.includeAdultKeywords == adult
              && r.value.keywordPlanNetwork == GoogleSearchAndPartners
              && r.value.keywordAnnotation == withAnnotations
    ensures r.Success? && !KeywordsGiven(keywords) ==> r.value.seed == UrlSeed(pageUrl.value)
    ensures r.Success? && KeywordsGiven(keywords) && !UrlGiven(pageUrl) ==>
              r.value.seed == KeywordSeed(NormaliseKeywordsArg(keywords).value)
    ensures r.Success? && KeywordsGiven(keywords) && UrlGiven(pageUrl) ==>
              r.value.seed == KeywordAndUrlSeed(pageUrl.value, NormaliseKeywordsArg(keywords).value)
  {
    if !(KeywordsGiven(keywords) || UrlGiven(pageUrl)) {
      return Failure(NoSeedMessage);
    }
    var seed: Seed;
    var seedKeywords := NormaliseKeywordsArg(keywords);
    if seedKeywords.None? && UrlGiven(pageUrl) {
      seed := UrlSeed(pageUrl.value);
    }
    if seedKeywords.Some? && !UrlGiven(pageUrl) {
      seed := KeywordSeed(seedKeywords.value);
    }
    if seedKeywords.Some? && UrlGiven(pageUrl) {
      seed := KeywordAndUrlSeed(pageUrl.value, seedKeywords.value);
    }
    r := Success(IdeasRequest(customerId, RequestLanguage(languageId), geoTargets, adult, GoogleSearchAndPartners, withAnnotations, seed));
  }

  // ================================================================ get_geo_targets

  /** The fields of a suggested `GeoTargetConstant` that the filter reads. */
  datatype GeoTargetConstant = GeoTargetConstant(resourceName: string, targetType: string, countryCode: string)

  /** The `names` argument: one comma-separated string, or a list. */
  datatype GeoNames = NamesText(text: string) | NamesList(items: seq<string>)

  /** What `names` holds after line 133, as a set (only membership in it is used). */
  function GeoNameSet(names: GeoNames): (r: set<string>)
    ensures names.NamesList? ==> forall x :: x in r <==> x in names.items
  {
    match names
    case NamesText(t) => NormaliseGeoNames(t)
    case NamesList(items) => set x | x in items
  }

  /** `what in [None, '', 'Any']`. */
  predicate AnyTargetType(what: Option<string>) {
    what == None || what == Some("") || what == Some("Any")
  }

  /** Whether the filter keeps a suggestion. */
  predicate KeepsSuggestion(tc: GeoTargetConstant, what: Option<string>, names: set<string>) {
    || AnyTargetType(what)
    || (what == Some(tc.targetType) && what == Some("Country") && Upper(tc.countryCode) in names)
  }

  /** The resource names of the kept suggestions, in order. */
  function GeoTargets(suggestions: seq<GeoTargetConstant>, what: Option<string>, names: set<string>): (r: seq<string>)
    ensures |r| <= |suggestions|
  {
    if suggestions == [] then []
    else
      var last := suggestions[|suggestions| - 1];
      GeoTargets(suggestions[..|suggestions| - 1], what, names) + (if KeepsSuggestion(last, what, names) then [last.resourceName] else [])
  }

  /** The filter loop of `get_geo_targets` over the suggestions the service returned. */
  method GetGeoTargets(suggestions: seq<GeoTargetConstant>, names: GeoNames, what: Option<string>) returns (res: seq<string>)
    ensures res == GeoTargets(suggestions, what, GeoNameSet(names))
  {
    var nameSet := GeoNameSet(names);
    res := [];
    for i := 0 to |suggestions|
      invariant res == GeoTargets(suggestions[..i], what, nameSet)
    {
      var tc := suggestions[i];
      GeoTargetsOfLonger(suggestions, i, what, nameSet);
      if AnyTargetType(what) {
        res := res + [tc.resourceName];
      } else if what == Some(tc.targetType) {
        if what == Some("Country") && Upper(tc.countryCode) in nameSet {
          res := res + [tc.resourceName];
        }
      }
    }
    assert suggestions[..|suggestions|] == suggestions;
  }

  lemma GeoTargetsOfLonger(suggestions: seq<GeoTargetConstant>, i: nat, what: Option<string>, names: set<string>)
    requires i < |suggestions|
    ensures GeoTargets(suggestions[..i + 1], what, names)
            == GeoTargets(suggestions[..i], what, names)
               + (if KeepsSuggestion(suggestions[i], what, names) then [suggestions[i].resourceName] else [])
  {
    assert suggestions[..i + 1][..i] == suggestions[..i];
  }

  /** With no type, an empty type or `Any`, every suggestion is kept, in order. */
  lemma {:induction false} AnyTypeKeepsAll(suggestions: seq<GeoTargetConstant>, what: Option<string>, names: set<string>)
    requires AnyTargetType(what)
    ensures |GeoTargets(suggestions, what, names)| == |suggestions|
    ensures forall k :: 0 <= k < |suggestions| ==> GeoTargets(suggestions, what, names)[k] == suggestions[k].resourceName
  {
    if suggestions != [] {
      AnyTypeKeepsAll(suggestions[..|suggestions| - 1], what, names);
    }
  }

  /** For `Country`, a resource name is kept exactly when some country suggestion with it has its upper-cased code among the names. */
  lemma {:induction false} CountryFilter(suggestions: seq<GeoTargetConstant>, names: set<string>)
    ensures forall x :: x in GeoTargets(suggestions, Some("Country"), names) <==>
              exists k :: && 0 <= k < |suggestions| && suggestions[k].resourceName == x
                          && suggestions[k].targetType == "Country" && Upper(suggestions[k].countryCode) in names
  {
    if suggestions != [] {
      var init := suggestions[..|suggestions| - 1];
      CountryFilter(init, names);
      assert forall k :: 0 <= k < |init| ==> init[k] == suggestions[k];
    }
  }

  /** For `Country`, suggestions none of whose upper-cased codes is among the names keep nothing. */
  lemma {:induction false} UnmatchedCountriesKeepNothing(suggestions: seq<GeoTargetConstant>, names: set<string>)
    requires forall k :: 0 <= k < |suggestions| ==> Upper(suggestions[k].countryCode) !in names
    ensures GeoTargets(suggestions, Some("Country"), names) == []
  {
    if suggestions != [] {
      UnmatchedCountriesKeepNothing(suggestions[..|suggestions| - 1], names);
    }
  }

  /** Any other type keeps nothing. */
  lemma {:induction false} OtherTypeKeepsNothing(suggestions: seq<GeoTargetConstant>, what: Option<string>, names: set<string>)
    requires !AnyTargetType(what) && what != Some("Country")
    ensures GeoTargets(suggestions, what, names) == []
  {
    if suggestions != [] {
      OtherTypeKeepsNothing(suggestions[..|suggestions| - 1], what, names);
    }
  }

  // ================================================================ get_keyword_ideas: the geo fallback

  /**
    Lines 197-198 as written, for a call without `with_null_geos`: the
    targets the given names resolve to or, when there are none, the
    `Country` targets suggested for the default location ids used as names,
    deduplicated.
   */
  function ResolveGeosAsWritten(first: seq<string>, defaultSuggestions: seq<GeoTargetConstant>): (r: set<string>)
    ensures first != [] ==> r == set x | x in first
  {
    var geos := if first != [] then first
                else GeoTargets(defaultSuggestions, Some("Country"), GeoNameSet(NamesList(DefaultLocationIds)));
    set x | x in geos
  }

  /**
    The fallback keeps nothing: a suggestion carries a two-letter country
    code, which never equals the four-digit id `2840`, so a request whose
    names resolve to nothing is sent with no location at all.
   */
  lemma DefaultFallbackTargetsNothing(defaultSuggestions: seq<GeoTargetConstant>)
    requires forall k :: 0 <= k < |defaultSuggestions| ==> |defaultSuggestions[k].countryCode| == 2
    ensures ResolveGeosAsWritten([], defaultSuggestions) == {}
  {
    var names := GeoNameSet(NamesList(DefaultLocationIds));
    assert names == {"2840"};
    forall k | 0 <= k < |defaultSuggestions| ensures Upper(defaultSuggestions[k].countryCode) !in names {
      assert |Upper(defaultSuggestions[k].countryCode)| == 2;
    }
    UnmatchedCountriesKeepNothing(defaultSuggestions, names);
  }

  /** The resource name of the default location (the United States). */
  const DefaultLocationName := "geoTargetConstants/" + DefaultLocationIds[0]

  /**
    The evidently intended fallback: when the names resolve to nothing, the
    request targets the default location itself.
   */
  function ResolveGeos(first: seq<string>): (r: set<string>)
    ensures r != {}
    ensures first != [] ==> r == set x | x in first
    ensures first == [] ==> r == {DefaultLocationName}
  {
    if first != [] then
      var r := set x | x in first;
      assert first[0] in r;
      r
    else {DefaultLocationName}
  }
}
