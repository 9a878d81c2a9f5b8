/** The translation hook: a per-language cache in browser storage, one batch
    request for the texts the cache misses, and a lookup that falls back to
    the original text. */
module Translation {
  import opened Wrappers
  import Seqs

  /** The storage key of one text's translation into `lang`. */
  function StorageKey(lang: string, text: string): (k: string)
    ensures |k| == 13 + |lang| + |text|
    ensures k[..12] == "translation_" && k[12 + |lang|] == '_'
    ensures k[|k| - |text|..] == text
  {
    "translation_" + lang + "_" + text
  }

  /** For a fixed language, distinct texts never share a key. */
  lemma StorageKeyInjective(lang: string, a: string, b: string)
    requires StorageKey(lang, a) == StorageKey(lang, b)
    ensures a == b
  {
    var k := StorageKey(lang, a);
    assert a == k[13 + |lang|..];
  }

  /** Across languages keys can collide, because the separator may occur in
      a language name or a text. */
  lemma StorageKeysCollideAcrossLanguages()
    ensures StorageKey("a", "b_c") == StorageKey("a_b", "c")
  {
  }

  /** The hook's state: the translations shown (`None` is a stored JS
      `undefined`) and the browser's key/value storage. */
  datatype State = State(translations: map<string, Option<string>>, storage: map<string, string>)

  /** `t(text)`: a present, non-empty translation, else the text itself. */
  function T(translations: map<string, Option<string>>, text: string): (r: string)
    ensures r != text ==> text in translations && translations[text] == Some(r)
    ensures (text in translations && translations[text].Some? && translations[text].value != "")
            ==> r == translations[text].value
    ensures r == "" ==> text == ""
  {
    if text in translations && translations[text].Some? && translations[text].value != "" then
      translations[text].value
    else text
  }

  /** A cache hit: the key is stored with a non-empty (truthy) value. */
  predicate IsHit(storage: map<string, string>, lang: string, text: string) {
    StorageKey(lang, text) in storage && storage[StorageKey(lang, text)] != ""
  }

  /** Selects the texts the cache misses. */
  function Missing(storage: map<string, string>, lang: string): string -> bool {
    t => !IsHit(storage, lang, t)
  }

  /** The texts to request: exactly the texts the cache misses. */
  function Misses(storage: map<string, string>, lang: string, texts: seq<string>): (r: seq<string>)
    ensures forall i :: 0 <= i < |r| ==> r[i] in texts && !IsHit(storage, lang, r[i])
    ensures forall i :: 0 <= i < |texts| && !IsHit(storage, lang, texts[i]) ==> texts[i] in r
  {
    Seqs.Filter(texts, Missing(storage, lang))
  }

  /** The request keeps the input order and the repeats: element k is the
      text at the k-th missed position of `texts`, and a missed text is
      requested as often as it occurs in `texts`. */
  lemma MissesInOrder(storage: map<string, string>, lang: string, texts: seq<string>)
    ensures var r := Misses(storage, lang, texts);
      |r| == |Seqs.Kept(texts, Missing(storage, lang), 0)|
      && (forall k :: 0 <= k < |r| ==> r[k] == texts[Seqs.Kept(texts, Missing(storage, lang), 0)[k]])
      && (forall t :: Seqs.Count(r, t) == if IsHit(storage, lang, t) then 0 else Seqs.Count(texts, t))
  {
    var keep := Missing(storage, lang);
    Seqs.FilterAt(texts, keep);
    Seqs.FilterCountAll(texts, keep);
    assert forall t :: keep(t) == !IsHit(storage, lang, t);
  }

  /** The cached translations this call applies. */
  function Hits(storage: map<string, string>, lang: string, texts: seq<string>): (m: map<string, Option<string>>)
    ensures forall t :: t in m <==> t in texts && IsHit(storage, lang, t)
    ensures forall t :: t in m ==> IsHit(storage, lang, t) && m[t] == Some(storage[StorageKey(lang, t)])
  {
    map t | t in texts && IsHit(storage, lang, t) :: Some(storage[StorageKey(lang, t)])
  }

  /** Each text of a batch is either applied from the cache or requested,
      never both and never neither. */
  lemma PartitionExact(storage: map<string, string>, lang: string, texts: seq<string>, text: string)
    requires text in texts
    ensures text in Hits(storage, lang, texts) <==> text !in Misses(storage, lang, texts)
  {
  }

  /** The i-th returned translation, or JS `undefined` past the end of the array. */
  function At(arr: seq<string>, i: nat): (v: Option<string>)
    ensures v.Some? <==> i < |arr|
  {
    if i < |arr| then Some(arr[i]) else None
  }

  /** The value `localStorage.setItem` stores: `undefined` becomes its string form. */
  function Stored(v: Option<string>): string {
    match v
    case Some(s) => s
    case None => "undefined"
  }

  /** Binds the i-th requested text to the i-th returned translation; a text
      requested twice keeps its last binding. */
  function Bind(requested: seq<string>, arr: seq<string>): (m: map<string, Option<string>>)
    ensures m.Keys == set t | t in requested
  {
    if |requested| == 0 then map[]
    else
      var n := |requested| - 1;
      Bind(requested[..n], arr)[requested[n] := At(arr, n)]
  }

  /** Writes each requested text's returned translation to storage under its key. */
  function StoreAll(storage: map<string, string>, lang: string, requested: seq<string>, arr: seq<string>): (s: map<string, string>)
    ensures s.Keys == storage.Keys + set t | t in requested :: StorageKey(lang, t)
  {
    if |requested| == 0 then storage
    else
      var n := |requested| - 1;
      StoreAll(storage, lang, requested[..n], arr)[StorageKey(lang, requested[n]) := Stored(At(arr, n))]
  }

  /** Position `i` holds the last request of its text: the binding made there
      is the one that survives. */
  predicate LastRequest(requested: seq<string>, i: nat) {
    i < |requested| && forall j :: i < j < |requested| ==> requested[j] != requested[i]
  }

  /** The text at its last request position is bound to the translation at
      that position (`undefined` past the end of the reply). */
  lemma {:induction false} BindAt(requested: seq<string>, arr: seq<string>, i: nat)
    requires LastRequest(requested, i)
    ensures Bind(requested, arr)[requested[i]] == At(arr, i)
  {
    var n := |requested| - 1;
    if i < n {
      assert requested[..n][i] == requested[i];
      assert requested[i] != requested[n];
      assert LastRequest(requested[..n], i) by {
        forall j | i < j < n ensures requested[..n][j] != requested[..n][i] {
          assert requested[..n][j] == requested[j];
        }
      }
      BindAt(requested[..n], arr, i);
    }
  }

  /** The storage key of the text at its last request position holds the
      translation at that position, or "undefined" past the end. */
  lemma {:induction false} StoreAllAt(storage: map<string, string>, lang: string, requested: seq<string>, arr: seq<string>, i: nat)
    requires LastRequest(requested, i)
    ensures StoreAll(storage, lang, requested, arr)[StorageKey(lang, requested[i])] == Stored(At(arr, i))
  {
    var n := |requested| - 1;
    var prev := StoreAll(storage, lang, requested[..n], arr);
    assert StoreAll(storage, lang, requested, arr) == prev[StorageKey(lang, requested[n]) := Stored(At(arr, n))];
    if i < n {
      var front := requested[..n];
      assert front[i] == requested[i];
      assert requested[i] != requested[n];
      assert StorageKey(lang, requested[i]) != StorageKey(lang, requested[n]) by {
        if StorageKey(lang, requested[i]) == StorageKey(lang, requested[n]) {
          StorageKeyInjective(lang, requested[i], requested[n]);
        }
      }
      assert LastRequest(front, i) by {
        forall j | i < j < n ensures front[j] != front[i] {
          assert front[j] == requested[j];
        }
      }
      StoreAllAt(storage, lang, front, arr, i);
    }
  }

  /** Every requested text has a last request position. */
  lemma LastRequestExists(requested: seq<string>, t: string)
    requires t in requested
    ensures exists i: nat :: LastRequest(requested, i) && requested[i] == t
  {
    var i :| 0 <= i < |requested| && requested[i] == t;
    while !LastRequest(requested, i)
      invariant 0 <= i < |requested| && requested[i] == t
      decreases |requested| - i
    {
      var j :| i < j < |requested| && requested[j] == requested[i];
      i := j;
    }
  }

  /** Storage keys that belong to no requested text keep their value. */
  lemma {:induction false} StoreAllElsewhere(storage: map<string, string>, lang: string, requested: seq<string>, arr: seq<string>, k: string)
    requires k in storage
    requires forall i :: 0 <= i < |requested| ==> StorageKey(lang, requested[i]) != k
    ensures StoreAll(storage, lang, requested, arr)[k] == storage[k]
  {
    if |requested| > 0 {
      var n := |requested| - 1;
      StoreAllElsewhere(storage, lang, requested[..n], arr, k);
    }
  }

  /** The translation service's answer: a thrown request, or a JSON body whose
      `translations` array may be missing. */
  datatype Outcome = Threw | Responded(translations: Option<seq<string>>)

  /** `translateTexts`. The second result is the list of texts sent to the
      service, when a request is made; `outcome` is its answer. */
  function TranslateTexts(st: State, texts: seq<string>, lang: string, outcome: Outcome): (r: (State, Option<seq<string>>))
    ensures lang == "EN" ==> r.1 == None && r.0.storage == st.storage
    ensures lang == "EN" ==> forall t :: t in texts ==> T(r.0.translations, t) == t
    ensures lang != "EN" ==> (r.1.Some? <==> |Misses(st.storage, lang, texts)| > 0)
    ensures r.1.Some? ==> r.1.value == Misses(st.storage, lang, texts)
    ensures lang != "EN" && r.1.None? ==>
      r.0.storage == st.storage && forall t :: t in texts ==> (t in r.0.translations && r.0.translations[t] == Some(st.storage[StorageKey(lang, t)]))
    ensures r.1.Some? && !(outcome.Responded? && outcome.translations.Some?) ==> r.0 == st
    ensures forall t :: t in st.translations && t !in texts ==> t in r.0.translations && r.0.translations[t] == st.translations[t]
    ensures forall t :: t in r.0.translations ==> t in st.translations || t in texts
  {
    if lang == "EN" then
      (st.(translations := st.translations + map t | t in texts :: Some(t)), None)
    else
      var requested := Misses(st.storage, lang, texts);
      var hits := Hits(st.storage, lang, texts);
      if |requested| == 0 then
        assert forall t :: t in texts ==> IsHit(st.storage, lang, t);
        (st.(translations := st.translations + hits), None)
      else match outcome
        case Responded(Some(arr)) =>
          (State(st.translations + (hits + Bind(requested, arr)), StoreAll(st.storage, lang, requested, arr)), Some(requested))
        case _ => (st, Some(requested))
  }

  /** After a successful request, the text requested last at position i
      shows translation i and its key stores it. */
  lemma TranslateSuccess(st: State, texts: seq<string>, lang: string, arr: seq<string>, i: nat)
    requires lang != "EN"
    requires LastRequest(Misses(st.storage, lang, texts), i)
    ensures var m := Misses(st.storage, lang, texts);
      var r := TranslateTexts(st, texts, lang, Responded(Some(arr))).0;
      m[i] in r.translations && r.translations[m[i]] == At(arr, i)
      && StorageKey(lang, m[i]) in r.storage && r.storage[StorageKey(lang, m[i])] == Stored(At(arr, i))
  {
    var m := Misses(st.storage, lang, texts);
    BindAt(m, arr, i);
    StoreAllAt(st.storage, lang, m, arr, i);
  }

  /** After a successful request, every cached text of the batch shows its
      cached value, and its storage entry is unchanged. */
  lemma TranslateHit(st: State, texts: seq<string>, lang: string, arr: seq<string>, t: string)
    requires lang != "EN" && |Misses(st.storage, lang, texts)| > 0
    requires t in texts && IsHit(st.storage, lang, t)
    ensures var r := TranslateTexts(st, texts, lang, Responded(Some(arr))).0;
      t in r.translations && r.translations[t] == Some(st.storage[StorageKey(lang, t)])
      && r.storage[StorageKey(lang, t)] == st.storage[StorageKey(lang, t)]
  {
    var m := Misses(st.storage, lang, texts);
    assert t !in m;
    StoreAllElsewhere(st.storage, lang, m, arr, StorageKey(lang, t));
  }

  /** Lowercase "en" is an ordinary target: uncached texts are requested. */
  lemma LowercaseEnRequests(st: State, text: string, outcome: Outcome)
    requires StorageKey("en", text) !in st.storage
    ensures TranslateTexts(st, [text], "en", outcome).1 == Some([text])
  {
    assert Misses(st.storage, "en", [text]) == [text];
  }
}
