/** The language indicator: the target language read from Google Translate's
    `googtrans` cookie, and the country flag shown for it. */
module LanguageFlags {
  import opened Wrappers
  import Strings

  /** Language code to the country whose flag represents it. */
  const Flags: map<string, string> := map[
    "en" := "us", "es" := "mx", "fr" := "fr", "de" := "de", "ja" := "jp",
    "zh" := "cn", "ko" := "kr", "ar" := "sa", "hi" := "in", "ru" := "ru",
    "pt" := "pt", "it" := "it", "nl" := "nl",
    "vi" := "vn", "ta" := "lk", "ur" := "pk", "fa" := "ir", "pl" := "pl",
    "tr" := "tr", "el" := "gr", "he" := "il", "am" := "et", "ha" := "ng",
    "th" := "th", "gu" := "in", "pa" := "in", "bn" := "bd", "ro" := "ro",
    "uk" := "ua", "sv" := "se", "tl" := "ph", "cmn" := "tw", "yue" := "hk"]

  /** A two-letter lower-case country code. */
  predicate IsCountryCode(c: string) {
    |c| == 2 && 'a' <= c[0] <= 'z' && 'a' <= c[1] <= 'z'
  }

  /** Every flag in the table is a two-letter lower-case country code. */
  lemma TableHoldsCountryCodes()
    ensures forall lang :: lang in Flags ==> IsCountryCode(Flags[lang])
  {
  }

  /** Several languages share India's flag, so the table is not injective. */
  lemma IndiaSharedFlag()
    ensures Flags["hi"] == "in" && Flags["gu"] == "in" && Flags["pa"] == "in"
    ensures exists a, b :: a in Flags && b in Flags && a != b && Flags[a] == Flags[b]
  {
    assert "hi" in Flags && "gu" in Flags && "hi" != "gu";
  }

  lemma TableSamples()
    ensures Flags["en"] == "us" && Flags["es"] == "mx" && Flags["zh"] == "cn"
    ensures Flags["cmn"] == "tw" && Flags["yue"] == "hk"
  {
  }

  /** Index of the first row that starts with `prefix`, as `Array.find` scans. */
  function FindRow(rows: seq<string>, prefix: string): (r: Option<nat>)
    ensures r.Some? ==> r.value < |rows| && prefix <= rows[r.value]
    ensures r.Some? ==> forall j :: 0 <= j < r.value ==> !(prefix <= rows[j])
    ensures r.None? ==> forall j :: 0 <= j < |rows| ==> !(prefix <= rows[j])
  {
    if |rows| == 0 then None
    else if prefix <= rows[0] then Some(0)
    else match FindRow(rows[1..], prefix)
      case None => None
      case Some(k) =>
        assert forall j :: 1 <= j <= k ==> rows[j] == rows[1..][j - 1];
        Some(k + 1)
  }

  /** `getLangFromCookie`: the third "/"-separated field of the first cookie
      starting with "googtrans", or "en" when there is none or it is empty. */
  function LangFromCookie(cookie: string): (lang: string)
    ensures lang != ""
    ensures FindRow(Strings.Split(cookie, "; "), "googtrans").None? ==> lang == "en"
    ensures lang != "en" ==> forall j :: !Strings.OccursAt(lang, "/", j)
  {
    var rows := Strings.Split(cookie, "; ");
    match FindRow(rows, "googtrans")
    case None => "en"
    case Some(i) =>
      var fields := Strings.Split(rows[i], "/");
      Strings.SplitPiecesFree(rows[i], "/");
      if |fields| > 2 && fields[2] != "" then fields[2] else "en"
  }

  /** A cookie that is the single entry `googtrans=/<from>/<to>`, such as
      "googtrans=/en/es", selects `<to>` ("es"); an empty `<to>` falls back
      to English. */
  lemma CookieSelectsTarget(from: string, to: string)
    requires forall j :: 0 <= j < |from| ==> from[j] != '/' && from[j] != ';'
    requires forall j :: 0 <= j < |to| ==> to[j] != '/' && to[j] != ';'
    ensures LangFromCookie("googtrans=/" + (from + "/" + to)) == if to == "" then "en" else to
  {
    var row := "googtrans=/" + (from + "/" + to);
    assert row[..9] == "googtrans";
    assert forall j :: 11 <= j < |row| ==> row[j] == (from + "/" + to)[j - 11];
    SingleEntry(row);
    EntryFields(from, to);
  }

  /** Whatever else the cookie holds, its first `googtrans` entry decides the
      language: an entry `googtrans=/<from>/<to>` with a non-empty `<to>`
      selects `<to>`. */
  lemma EntrySelectsTarget(cookie: string, i: nat, from: string, to: string)
    requires FindRow(Strings.Split(cookie, "; "), "googtrans") == Some(i)
    requires Strings.Split(cookie, "; ")[i] == "googtrans=/" + (from + "/" + to)
    requires forall j :: 0 <= j < |from| ==> from[j] != '/'
    requires forall j :: 0 <= j < |to| ==> to[j] != '/'
    requires to != ""
    ensures LangFromCookie(cookie) == to
  {
    EntryFields(from, to);
  }

  /** The "/"-fields of a `googtrans` entry. */
  lemma EntryFields(from: string, to: string)
    requires forall j :: 0 <= j < |from| ==> from[j] != '/'
    requires forall j :: 0 <= j < |to| ==> to[j] != '/'
    ensures Strings.Split("googtrans=/" + (from + "/" + to), "/") == ["googtrans=", from, to]
  {
    LangFields(from, to);
    GoogtransField(from + "/" + to);
  }

  /** The "/"-fields of `<from>/<to>`. */
  lemma LangFields(from: string, to: string)
    requires forall j :: 0 <= j < |from| ==> from[j] != '/'
    requires forall j :: 0 <= j < |to| ==> to[j] != '/'
    ensures Strings.Split(from + "/" + to, "/") == [from, to]
  {
    NoSlash(to);
    assert Strings.Split(to, "/") == [to];
    SplitAtSlash(from + "/" + to, from, to);
  }

  /** The first "/"-field of `googtrans=/<rest>` is `googtrans=`. */
  lemma GoogtransField(rest: string)
    ensures Strings.Split("googtrans=/" + rest, "/") == ["googtrans="] + Strings.Split(rest, "/")
  {
    var head := "googtrans=";
    assert forall j :: 0 <= j < |head| ==> head[j] != '/';
    SplitAtSlash("googtrans=/" + rest, head, rest);
  }

  /** Splitting `head + "/" + tail` at its first "/", when `head` holds none. */
  lemma SplitAtSlash(s: string, head: string, tail: string)
    requires s == head + "/" + tail
    requires forall j :: 0 <= j < |head| ==> head[j] != '/'
    ensures Strings.Split(s, "/") == [head] + Strings.Split(tail, "/")
  {
    assert forall j :: 0 <= j < |head| ==> s[j] == head[j];
    SlashAt(s, |head|);
    assert s[..|head|] == head && s[|head| + 1..] == tail;
  }

  /** A cookie that is a single `googtrans` entry selects its third field. */
  lemma SingleEntry(cookie: string)
    requires forall j :: 0 <= j < |cookie| ==> cookie[j] != ';'
    requires "googtrans" <= cookie
    ensures var fields := Strings.Split(cookie, "/");
      LangFromCookie(cookie) == if |fields| > 2 && fields[2] != "" then fields[2] else "en"
  {
    SingleCookie(cookie);
    assert FindRow([cookie], "googtrans") == Some(0);
  }

  /** A cookie string without "; " is one entry. */
  lemma SingleCookie(cookie: string)
    requires forall j :: 0 <= j < |cookie| ==> cookie[j] != ';'
    ensures Strings.Split(cookie, "; ") == [cookie]
  {
    forall j ensures !Strings.OccursAt(cookie, "; ", j) {
      if 0 <= j && j + 2 <= |cookie| {
        assert cookie[j..j + 2][0] == cookie[j];
      }
    }
  }

  /** The first "/" of `s` is at index `i`. */
  lemma SlashAt(s: string, i: nat)
    requires i < |s| && s[i] == '/'
    requires forall j :: 0 <= j < i ==> s[j] != '/'
    ensures Strings.Find(s, "/") == Some(i)
  {
    forall j | 0 <= j < i ensures !Strings.OccursAt(s, "/", j) {
      Strings.OccursChar(s, '/', j);
    }
    Strings.OccursChar(s, '/', i);
    Strings.FindLeftmost(s, "/", i);
  }

  lemma NoSlash(s: string)
    requires forall j :: 0 <= j < |s| ==> s[j] != '/'
    ensures Strings.Find(s, "/") == None
  {
    forall j ensures !Strings.OccursAt(s, "/", j) {
      Strings.OccursChar(s, '/', j);
    }
  }

  /** Without a cookie the language is English. */
  lemma NoCookieIsEnglish()
    ensures LangFromCookie("") == "en"
  {
    assert Strings.Split("", "; ") == [""];
  }

  /** `translationFlags[lang] || "us"`. */
  function FlagCode(lang: string): (code: string)
    ensures IsCountryCode(code)
    ensures lang in Flags ==> code == Flags[lang]
    ensures lang !in Flags ==> code == "us"
  {
    TableHoldsCountryCodes();
    if lang in Flags then Flags[lang] else "us"
  }

  /** The flag image for a country code. */
  function FlagUrl(code: string): (url: string)
    ensures |url| == 25 + |code| + 4
    ensures url[25..25 + |code|] == code
  {
    "https://flagcdn.com/w320/" + code + ".png"
  }

  /** The no-cookie default and an unmapped language show the same flag. */
  lemma DefaultsAgree(lang: string)
    requires lang !in Flags
    ensures FlagCode(LangFromCookie("")) == FlagCode(lang) == "us"
  {
    NoCookieIsEnglish();
  }
}
