/**
 * NotAPI (api/index.js): the feature lookups behind `GET /api/:api`. Each
 * outside library or service call is an input here: the `Providers` record
 * says what every call would yield for a given argument.
 */
module Features {
  import opened Wrappers
  import opened Dict

  /** A morse-decoder or romans call: the string form of its result, or the message of what it threw. */
  datatype Outcome = Returned(text: string) | Threw(message: string)

  /** A network lookup: its value, or the message of the error raised on the way. */
  datatype Lookup<T> = Found(value: T) | Failed(message: string)

  /** The first Genius search hit with its fetched lyrics, already in string form. */
  datatype Song = Song(title: string, artist: string, url: string, lyrics: string)

  /** The query values `en`, `de`, `id` and `q`; None when absent. */
  datatype Query = Query(en: Option<string>, de: Option<string>, id: Option<string>, q: Option<string>)

  datatype Providers = Providers(
    morseEncode: string -> Outcome,
    morseDecode: string -> Outcome,
    romanize: string -> Outcome,
    deromanize: string -> Outcome,
    /** The SpamWatch ban record for an id, its `date` already converted. */
    banlist: string -> Lookup<Dict<string>>,
    geniusSearch: string -> Lookup<Song>)

  /** What NotAPI returns: `{is_api, data}`. */
  datatype ApiResult = ApiResult(isApi: bool, data: Dict<string>)

  /** JavaScript truthiness of a query value: present and not the empty string. */
  predicate Truthy(p: Option<string>)
  {
    p.Some? && p.value != ""
  }

  /** The value a `data["result"]` assignment stores for a library call. */
  function Rendered(o: Outcome): string
  {
    match o
    case Returned(t) => t
    case Threw(m) => m
  }

  /** The request names a feature and supplies at least one of its parameters. */
  predicate Recognized(api: string, query: Query)
  {
    || ((api == "morse" || api == "romans") && (Truthy(query.en) || Truthy(query.de)))
    || (api == "spamwatch" && Truthy(query.id))
    || (api == "lyrics" && Truthy(query.q))
  }

  /** The `input`/`result` pair of the conversion that ran last: `de` when given, else `en`. */
  function TextFields(query: Query, encode: string -> Outcome, decode: string -> Outcome): Dict<string>
  {
    if Truthy(query.de) then [("input", query.de.value), ("result", Rendered(decode(query.de.value)))]
    else if Truthy(query.en) then [("input", query.en.value), ("result", Rendered(encode(query.en.value)))]
    else []
  }

  /** The SpamWatch fields: only the error on failure, else `error: ""` with the record spread over it. */
  function BanFields(l: Lookup<Dict<string>>): Dict<string>
  {
    match l
    case Found(ban) => Spread([("error", "")], ban)
    case Failed(m) => [("error", m)]
  }

  /** The lyrics fields: only the error on failure, else five keys in a fixed order. */
  function SongFields(l: Lookup<Song>): Dict<string>
  {
    match l
    case Found(s) => [("error", ""), ("title", s.title), ("artist", s.artist), ("url", s.url), ("lyrics", s.lyrics)]
    case Failed(m) => [("error", m)]
  }

  /** The `data` object NotAPI returns, described feature by feature. */
  function Fields(api: string, query: Query, p: Providers): Dict<string>
  {
    if api == "morse" then TextFields(query, p.morseEncode, p.morseDecode)
    else if api == "romans" then TextFields(query, p.romanize, p.deromanize)
    else if api == "spamwatch" && Truthy(query.id) then BanFields(p.banlist(query.id.value))
    else if api == "lyrics" && Truthy(query.q) then SongFields(p.geniusSearch(query.q.value))
    else []
  }

  /** Assigning `input` then `result` to an empty or input/result object leaves exactly that pair. */
  lemma OverwritePair(data: Dict<string>, input: string, result: string)
    requires data == [] || (|data| == 2 && data[0].0 == "input" && data[1].0 == "result")
    ensures Put(Put(data, "input", input), "result", result) == [("input", input), ("result", result)]
  {
    if data != [] {
      PutAt(data, 0, input);
      var d' := Put(data, "input", input);
      assert d'[..1] == [("input", input)];
      PutAt(d', 1, result);
    }
  }

  /** An unknown feature, or a known one without any of its parameters, yields an empty object. */
  lemma UnrecognizedIsEmpty(api: string, query: Query, p: Providers)
    requires !Recognized(api, query)
    ensures Fields(api, query, p) == []
  {
  }

  /** The morse and romans branches set only `input` and `result`, and never `error`. */
  lemma TextFeatureKeys(api: string, query: Query, p: Providers)
    requires api == "morse" || api == "romans"
    ensures "error" !in Keys(Fields(api, query, p))
    ensures forall k :: k in Keys(Fields(api, query, p)) ==> k == "input" || k == "result"
    ensures Recognized(api, query) ==> Keys(Fields(api, query, p)) == ["input", "result"]
  {
  }

  /**
   * With both `en` and `de`, the decode pair overwrites the encode pair: the
   * encoder's outcome, success or failure, leaves no trace in the result.
   */
  lemma DecodeOverwritesEncode(api: string, query: Query, p: Providers, other: string -> Outcome)
    requires api == "morse" || api == "romans"
    requires Truthy(query.de)
    ensures Get(Fields(api, query, p), "input") == Some(query.de.value)
    ensures Fields(api, query, p) == Fields(api, query, p.(morseEncode := other, romanize := other))
  {
  }

  /** A conversion that throws reports its message as the `result`, still without an `error` key. */
  lemma ThrownMessageIsResult(api: string, query: Query, p: Providers, m: string)
    requires api == "morse"
    requires Truthy(query.de) && p.morseDecode(query.de.value) == Threw(m)
    ensures Get(Fields(api, query, p), "result") == Some(m)
    ensures "error" !in Keys(Fields(api, query, p))
  {
  }

  /** A failed SpamWatch or Genius lookup leaves exactly `{error: message}`. */
  lemma LookupFailureIsOnlyError(api: string, query: Query, p: Providers)
    requires (api == "spamwatch" && Truthy(query.id) && p.banlist(query.id.value).Failed?)
          || (api == "lyrics" && Truthy(query.q) && p.geniusSearch(query.q.value).Failed?)
    ensures Fields(api, query, p) == [("error", if api == "spamwatch" then p.banlist(query.id.value).message
                                                else p.geniusSearch(query.q.value).message)]
  {
  }

  /** A successful lyrics search yields the keys error, title, artist, url, lyrics in that order, error empty. */
  lemma LyricsSuccessKeys(query: Query, p: Providers)
    requires Truthy(query.q) && p.geniusSearch(query.q.value).Found?
    ensures Keys(Fields("lyrics", query, p)) == ["error", "title", "artist", "url", "lyrics"]
    ensures Get(Fields("lyrics", query, p), "error") == Some("")
  {
  }

  /**
   * A found ban record is spread over `{error: ""}`: `error` stays first,
   * the record's other keys follow in its order, and the record's value wins
   * every shared key, `error` included.
   */
  lemma BanRecordWins(query: Query, p: Providers, k: string)
    requires Truthy(query.id) && p.banlist(query.id.value).Found?
    requires Unique(p.banlist(query.id.value).value)
    ensures Keys(Fields("spamwatch", query, p)) == ["error"] + Missing(["error"], Keys(p.banlist(query.id.value).value))
    ensures Get(Fields("spamwatch", query, p), k) ==
      if k in Keys(p.banlist(query.id.value).value) then Get(p.banlist(query.id.value).value, k)
      else if k == "error" then Some("") else None
  {
    var ban, start := p.banlist(query.id.value).value, [("error", "")];
    assert Fields("spamwatch", query, p) == Spread(start, ban);
    assert Keys(start) == ["error"];
    assert Get(start, k) == if k == "error" then Some("") else None;
    SpreadKeys(start, ban);
    SpreadGet(start, ban, k);
  }

  /**
   * The morse and romans branches: convert `en` if given, then `de` if
   * given, each time assigning `input` and then `result`.
   */
  method ConvertText(query: Query, encode: string -> Outcome, decode: string -> Outcome)
    returns (isApi: bool, data: Dict<string>)
    ensures isApi == (Truthy(query.en) || Truthy(query.de))
    ensures data == TextFields(query, encode, decode)
  {
    data := [];
    isApi := false;
    if Truthy(query.en) {
      isApi := true;
      data := Put(data, "input", query.en.value);
      data := Put(data, "result", Rendered(encode(query.en.value)));
    }
    if Truthy(query.de) {
      isApi := true;
      OverwritePair(data, query.de.value, Rendered(decode(query.de.value)));
      data := Put(data, "input", query.de.value);
      data := Put(data, "result", Rendered(decode(query.de.value)));
    }
  }

  /** The spamwatch branch: `error: ""` then the ban record spread over it, or the error alone. */
  method CheckBan(id: string, banlist: string -> Lookup<Dict<string>>) returns (data: Dict<string>)
    ensures data == BanFields(banlist(id))
  {
    data := [];
    match banlist(id)
    case Found(ban) =>
      data := Put(data, "error", "");
      data := Spread(data, ban);
    case Failed(m) =>
      data := Put(data, "error", m);
  }

  /** Assigning a key the object lacks appends it. */
  lemma AssignFresh(d: Dict<string>, keys: seq<string>, k: string, v: string)
    requires Keys(d) == keys && k !in keys
    ensures Put(d, k, v) == d + [(k, v)] && Keys(Put(d, k, v)) == keys + [k]
  {
  }

  /** The first two lyrics assignments: `error`, then `title`. */
  lemma SongHead(title: string)
    ensures Put(Put([], "error", ""), "title", title) == [("error", ""), ("title", title)]
  {
    AssignFresh([], [], "error", "");
    AssignFresh([("error", "")], ["error"], "title", title);
  }

  /** The last three lyrics assignments each add a new key after `error` and `title`. */
  lemma SongTail(d: Dict<string>, song: Song)
    requires d == [("error", ""), ("title", song.title)]
    ensures Put(Put(Put(d, "artist", song.artist), "url", song.url), "lyrics", song.lyrics) == SongFields(Found(song))
  {
    AssignFresh(d, ["error", "title"], "artist", song.artist);
    var d3 := d + [("artist", song.artist)];
    AssignFresh(d3, ["error", "title", "artist"], "url", song.url);
    var d4 := d3 + [("url", song.url)];
    AssignFresh(d4, ["error", "title", "artist", "url"], "lyrics", song.lyrics);
  }

  /** The lyrics branch: five assignments after the song and its lyrics are fetched, or the error alone. */
  method SearchLyrics(q: string, geniusSearch: string -> Lookup<Song>) returns (data: Dict<string>)
    ensures data == SongFields(geniusSearch(q))
  {
    data := [];
    match geniusSearch(q)
    case Found(song) =>
      data := Put(data, "error", "");
      data := Put(data, "title", song.title);
      SongHead(song.title);
      data := Put(data, "artist", song.artist);
      data := Put(data, "url", song.url);
      data := Put(data, "lyrics", song.lyrics);
      SongTail([("error", ""), ("title", song.title)], song);
    case Failed(m) =>
      data := Put(data, "error", m);
  }

  /**
   * NotAPI as the source runs it: `data` starts empty, at most one feature
   * branch matches `api`, and that branch assigns keys one after another.
   */
  method NotApi(api: string, query: Query, p: Providers) returns (r: ApiResult)
    ensures r.isApi == Recognized(api, query)
    ensures r.data == Fields(api, query, p)
  {
    var data: Dict<string> := [];
    var isApi := false;
    if api == "morse" {
      isApi, data := ConvertText(query, p.morseEncode, p.morseDecode);
    }
    if api == "romans" {
      isApi, data := ConvertText(query, p.romanize, p.deromanize);
    }
    if api == "spamwatch" {
      if Truthy(query.id) {
        isApi := true;
        data := CheckBan(query.id.value, p.banlist);
      }
    }
    if api == "lyrics" {
      if Truthy(query.q) {
        isApi := true;
        data := SearchLyrics(query.q.value, p.geniusSearch);
      }
    }
    r := ApiResult(isApi, data);
  }
}
