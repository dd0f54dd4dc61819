/**
 * The rewrite gate of the background script: the `onBeforeRequest` decision
 * that appends a synthetic mix playlist (`list=RD<id>`, `index=1`) to YouTube
 * watch URLs, the video cache with its five-minute sweep, the tab-update
 * notification and the runtime message handler.
 */
module Background {
  import opened Wrappers
  import opened Text
  import opened SearchParams

  const YouTubeDomains: seq<string> := ["youtube.com", "www.youtube.com"]
  const PlaylistPrefix: string := "RD"
  const PlaylistIndex: string := "1"
  /** Five minutes, in milliseconds. */
  const MaxAge: int := 5 * 60 * 1000

  /**
   * `isYouTubeWatchUrl`: the host is exactly `youtube.com` or
   * `www.youtube.com` (no other subdomain) and the path is exactly `/watch`.
   * Every such host contains `youtube.com`, the test the tab notification uses.
   */
  predicate IsYouTubeWatchUrl(u: Url)
    ensures IsYouTubeWatchUrl(u) <==> (u.host == "youtube.com" || u.host == "www.youtube.com") && u.path == "/watch"
    ensures IsYouTubeWatchUrl(u) ==> Contains(u.host, "youtube.com")
  {
    assert OccursAt("www.youtube.com", "youtube.com", 4);
    assert OccursAt("youtube.com", "youtube.com", 0);
    u.host in YouTubeDomains && u.path == "/watch"
  }

  // ---------------------------------------------------------------------
  // The video-id pattern `[?&]v=([^&]+)`, matched against `url.search`.

  /** The pattern matches at `i`: a `?` or `&`, then `v=`, then at least one character other than `&`. */
  predicate IdStartsAt(s: string, i: int) {
    0 <= i && i + 3 < |s| && (s[i] == '?' || s[i] == '&') && s[i + 1] == 'v' && s[i + 2] == '=' && s[i + 3] != '&'
  }

  /** What the greedy group `([^&]+)` captures: the longest prefix of `t` without `&`. */
  function TakeUntilAmp(t: string): (r: string)
    ensures |r| <= |t|
    ensures t != [] && t[0] != '&' ==> r != []
  {
    if t == [] || t[0] == '&' then [] else [t[0]] + TakeUntilAmp(t[1..])
  }

  lemma {:induction false} TakeUntilAmpIsLongestPrefix(t: string)
    ensures var r := TakeUntilAmp(t);
            && r == t[..|r|]
            && (forall i :: 0 <= i < |r| ==> r[i] != '&')
            && (|r| == |t| || t[|r|] == '&')
  {
    if t != [] && t[0] != '&' {
      TakeUntilAmpIsLongestPrefix(t[1..]);
      var r := TakeUntilAmp(t);
      assert r == [t[0]] + TakeUntilAmp(t[1..]);
      assert forall i :: 1 <= i < |r| ==> r[i] == TakeUntilAmp(t[1..])[i - 1];
    }
  }

  /**
   * `s.match(VIDEO_ID_REGEX)[1]`: the capture at the leftmost position where
   * the pattern matches, or None when it matches nowhere.
   */
  function MatchVideoId(s: string): (r: Option<string>)
    ensures r.Some? ==> r.value != []
    decreases |s|
  {
    if |s| < 4 then None
    else if IdStartsAt(s, 0) then Some(TakeUntilAmp(s[3..]))
    else MatchVideoId(s[1..])
  }

  /** The pattern matches somewhere iff there is a capture, and the capture is taken at the leftmost match. */
  lemma {:induction false} MatchVideoIdIsLeftmost(s: string)
    ensures MatchVideoId(s).None? <==> forall i :: !IdStartsAt(s, i)
    ensures MatchVideoId(s).Some? ==>
              exists i :: && IdStartsAt(s, i) && (forall j :: 0 <= j < i ==> !IdStartsAt(s, j))
                          && MatchVideoId(s).value == TakeUntilAmp(s[i + 3..])
    decreases |s|
  {
    if |s| >= 4 && !IdStartsAt(s, 0) {
      MatchVideoIdIsLeftmost(s[1..]);
      assert forall i :: IdStartsAt(s[1..], i) <==> IdStartsAt(s, i + 1);
      assert forall i :: IdStartsAt(s, i) ==> i > 0 && IdStartsAt(s[1..], i - 1);
      if MatchVideoId(s[1..]).Some? {
        var i :| IdStartsAt(s[1..], i) && (forall j :: 0 <= j < i ==> !IdStartsAt(s[1..], j))
                 && MatchVideoId(s[1..]).value == TakeUntilAmp(s[1..][i + 3..]);
        assert s[1..][i + 3..] == s[i + 4..];
        assert IdStartsAt(s, i + 1);
      }
    }
  }

  /** A capture never holds `&`. */
  lemma {:induction false} MatchVideoIdHasNoSeparator(s: string)
    ensures MatchVideoId(s).Some? ==> forall k :: 0 <= k < |MatchVideoId(s).value| ==> MatchVideoId(s).value[k] != '&'
    decreases |s|
  {
    if |s| >= 4 {
      if IdStartsAt(s, 0) {
        TakeUntilAmpIsLongestPrefix(s[3..]);
      } else {
        MatchVideoIdHasNoSeparator(s[1..]);
      }
    }
  }

  /**
   * `extractVideoId`: no id iff the pattern matches nowhere in `url.search`;
   * a found id is non-empty and holds no `&`.
   */
  function ExtractVideoId(u: Url): (r: Option<string>)
    ensures r.None? <==> forall i :: !IdStartsAt(Search(u.query), i)
    ensures r.Some? ==> r.value != [] && forall k :: 0 <= k < |r.value| ==> r.value[k] != '&'
  {
    MatchVideoIdIsLeftmost(Search(u.query));
    MatchVideoIdHasNoSeparator(Search(u.query));
    MatchVideoId(Search(u.query))
  }

  /** `hasPlaylistParams`: some pair is named `list` or `index`; otherwise `get` of both is null. */
  predicate HasPlaylistParams(u: Url)
    ensures HasPlaylistParams(u) <==> exists p :: p in u.query && (p.name == "list" || p.name == "index")
    ensures !HasPlaylistParams(u) ==> Get(u.query, "list").None? && Get(u.query, "index").None?
  {
    Has(u.query, "list") || Has(u.query, "index")
  }

  /**
   * `createPlaylistUrl`: a copy of `u` with `list` set to `RD` + `videoId`,
   * then `index` set to `1`. On a query that has neither, both pairs are
   * appended after the original pairs, in that order.
   */
  function CreatePlaylistUrl(u: Url, videoId: string): (r: Url)
    ensures r.host == u.host && r.path == u.path
    ensures Get(r.query, "list") == Some(PlaylistPrefix + videoId)
    ensures Get(r.query, "index") == Some(PlaylistIndex)
    ensures !HasPlaylistParams(u) ==>
              r.query == u.query + [Param("list", PlaylistPrefix + videoId), Param("index", PlaylistIndex)]
  {
    var withList := Set(u.query, "list", PlaylistPrefix + videoId);
    var q := Set(withList, "index", PlaylistIndex);
    SetKeepsOthers(withList, "index", PlaylistIndex, "list");
    assert !HasPlaylistParams(u) ==>
             q == u.query + [Param("list", PlaylistPrefix + videoId), Param("index", PlaylistIndex)] by {
      if !HasPlaylistParams(u) {
        SetTwiceAppends(u.query, "list", PlaylistPrefix + videoId, "index", PlaylistIndex);
      }
    }
    Url(u.host, u.path, q)
  }

  /** A successful rewrite: the extracted video id and the redirect target. */
  datatype Rewrite = Rewrite(videoId: string, modified: Url)

  /**
   * The guard chain of the request interceptor once the feature is known to
   * be enabled: not a watch URL, no video id, or playlist parameters already
   * present each yield no rewrite.
   */
  function Evaluate(u: Url): (r: Option<Rewrite>)
    ensures r.Some? <==> IsYouTubeWatchUrl(u) && ExtractVideoId(u).Some? && !HasPlaylistParams(u)
    ensures r.Some? ==>
              && r.value.videoId == ExtractVideoId(u).value
              && r.value.modified == Url(u.host, u.path,
                   u.query + [Param("list", PlaylistPrefix + r.value.videoId), Param("index", PlaylistIndex)])
  {
    if !IsYouTubeWatchUrl(u) then None
    else
      match ExtractVideoId(u)
      case None => None
      case Some(videoId) =>
        if HasPlaylistParams(u) then None
        else Some(Rewrite(videoId, CreatePlaylistUrl(u, videoId)))
  }

  // ---------------------------------------------------------------------
  // What the gate decides, stated over the query pairs.

  /** No `&` and no `?` in `s`: text that cannot start a match of the video-id pattern. */
  predicate Plain(s: string) {
    forall k :: 0 <= k < |s| ==> s[k] != '&' && s[k] != '?'
  }

  /**
   * A query whose raw text splits back into its pairs: no `&` or `?` inside
   * a name or a value and no `=` inside a name.
   */
  predicate WellFormedQuery(ps: seq<Param>) {
    forall i :: 0 <= i < |ps| ==> Plain(ps[i].name) && Plain(ps[i].value) && '=' !in ps[i].name
  }

  /** The value of the first pair named `name` whose value is non-empty. */
  function FirstNonEmpty(ps: seq<Param>, name: string): (r: Option<string>)
    ensures r.Some? ==> Param(name, r.value) in ps && r.value != ""
  {
    if ps == [] then None
    else if ps[0].name == name && ps[0].value != "" then Some(ps[0].value)
    else FirstNonEmpty(ps[1..], name)
  }

  /** Text without `?` or `&` in front of a string cannot hold a match. */
  lemma {:induction false} SkipPlain(x: string, y: string)
    requires Plain(x)
    ensures MatchVideoId(x + y) == MatchVideoId(y)
  {
    if x != [] {
      assert (x + y)[1..] == x[1..] + y;
      assert !IdStartsAt(x + y, 0);
      SkipPlain(x[1..], y);
    } else {
      assert x + y == y;
    }
  }

  /** The capture stops exactly at the `&` that ends a value. */
  lemma {:induction false} TakeUntilAmpStopsAtSeparator(value: string, rest: string)
    requires forall k :: 0 <= k < |value| ==> value[k] != '&'
    requires rest == [] || rest[0] == '&'
    ensures TakeUntilAmp(value + rest) == value
  {
    if value == [] {
      assert value + rest == rest;
    } else {
      assert (value + rest)[1..] == value[1..] + rest;
      TakeUntilAmpStopsAtSeparator(value[1..], rest);
    }
  }

  lemma EntriesShape(ps: seq<Param>)
    ensures Entries('&', ps) == [] || Entries('&', ps)[0] == '&'
    ensures Entries('&', ps) == [] <==> ps == []
  {
  }

  /** A non-empty `v` pair is matched where it is serialised, and its value is the capture. */
  lemma MatchAtVPair(sep: char, value: string, rest: string)
    requires sep == '?' || sep == '&'
    requires Plain(value) && value != ""
    requires rest == [] || rest[0] == '&'
    ensures MatchVideoId([sep] + "v" + "=" + value + rest) == Some(value)
  {
    var s := [sep] + "v" + "=" + value + rest;
    assert s[3..] == value + rest;
    assert IdStartsAt(s, 0);
    TakeUntilAmpStopsAtSeparator(value, rest);
  }

  /** Any other well-formed pair is skipped: the match continues after it. */
  lemma SkipPair(sep: char, p: Param, rest: string)
    requires Plain(p.name) && Plain(p.value) && '=' !in p.name
    requires p.name != "v" || (p.value == "" && (rest == [] || rest[0] == '&'))
    ensures MatchVideoId([sep] + p.name + "=" + p.value + rest) == MatchVideoId(rest)
  {
    var mid := p.name + "=" + p.value;
    NoMatchAtPair(sep, p, rest);
    PlainPair(p);
    assert [sep] + p.name + "=" + p.value + rest == [sep] + mid + rest;
    SkipAfterSeparator(sep, mid, rest);
  }

  /** A separator that does not start a match, followed by plain text, is skipped together with that text. */
  lemma SkipAfterSeparator(sep: char, mid: string, rest: string)
    requires Plain(mid)
    requires !IdStartsAt([sep] + mid + rest, 0)
    ensures MatchVideoId([sep] + mid + rest) == MatchVideoId(rest)
  {
    var s := [sep] + mid + rest;
    assert s[1..] == mid + rest;
    SkipPlain(mid, rest);
    if |s| < 4 {
      assert |rest| < 4;
      assert MatchVideoId(rest) == None;
    } else {
      assert MatchVideoId(s) == MatchVideoId(s[1..]);
    }
  }

  /** The separator in front of such a pair does not start a match. */
  lemma NoMatchAtPair(sep: char, p: Param, rest: string)
    requires '=' !in p.name
    requires p.name != "v" || (p.value == "" && (rest == [] || rest[0] == '&'))
    ensures !IdStartsAt([sep] + p.name + "=" + p.value + rest, 0)
  {
    var s := [sep] + p.name + "=" + p.value + rest;
    if |p.name| == 0 {
      assert s[1] == '=';
    } else if |p.name| == 1 {
      assert s[1] == p.name[0] && s[2] == '=';
      if p.name[0] == 'v' {
        assert p.name == "v";
        assert s == [sep, 'v', '='] + rest;
      }
    } else {
      assert s[2] == p.name[1];
      assert p.name[1] in p.name;
    }
  }

  /** The serialisation `name=value` of a well-formed pair holds no `?` and no `&`. */
  lemma PlainPair(p: Param)
    requires Plain(p.name) && Plain(p.value)
    ensures Plain(p.name + "=" + p.value)
  {
    var mid := p.name + "=" + p.value;
    forall k | 0 <= k < |mid| ensures mid[k] != '&' && mid[k] != '?' {
      if k < |p.name| {
        assert mid[k] == p.name[k];
      } else if k > |p.name| {
        assert mid[k] == p.value[k - |p.name| - 1];
      }
    }
  }

  /** Matching the serialised pairs finds the first `v` pair with a non-empty value. */
  lemma {:induction false} EntriesMatch(sep: char, ps: seq<Param>)
    requires sep == '?' || sep == '&'
    requires WellFormedQuery(ps)
    ensures MatchVideoId(Entries(sep, ps)) == FirstNonEmpty(ps, "v")
  {
    if ps != [] {
      var p := ps[0];
      var rest := Entries('&', ps[1..]);
      assert WellFormedQuery(ps[1..]) by {
        forall i | 0 <= i < |ps[1..]| ensures Plain(ps[1..][i].name) && Plain(ps[1..][i].value) && '=' !in ps[1..][i].name {
          assert ps[1..][i] == ps[i + 1];
        }
      }
      assert Plain(p.name) && Plain(p.value) && '=' !in p.name;
      EntriesShape(ps[1..]);
      if p.name == "v" && p.value != "" {
        MatchAtVPair(sep, p.value, rest);
      } else {
        SkipPair(sep, p, rest);
        EntriesMatch('&', ps[1..]);
      }
    }
  }

  /**
   * On a well-formed query the video-id pattern agrees with the pairs: it
   * yields the first `v` value that is not empty (an empty `v=` is skipped,
   * where `searchParams.get('v')` would return it).
   */
  lemma ExtractVideoIdFromPairs(u: Url)
    requires WellFormedQuery(u.query)
    ensures ExtractVideoId(u) == FirstNonEmpty(u.query, "v")
  {
    EntriesMatch('?', u.query);
  }

  /**
   * On a raw query that is not well formed the pattern also matches inside
   * another parameter's value: for `?q=a?v=b` it yields the id `b` although
   * the query has no `v` parameter.
   */
  lemma PatternMatchesInsideValue(u: Url, name: string, before: string, id: string)
    requires Plain(name) && '=' !in name && name != "v"
    requires Plain(before) && Plain(id) && id != ""
    requires u.query == [Param(name, before + "?v=" + id)]
    ensures ExtractVideoId(u) == Some(id) && Get(u.query, "v") == None
  {
    var tail := "?v=" + id;
    var head := ['?'] + name + "=";
    var value := u.query[0].value;
    assert value == before + tail;
    assert u.query[1..] == [];
    assert Search(u.query) == head + value + Entries('&', []);
    assert head + value + Entries('&', []) == head + before + tail;
    SkipPair('?', Param(name, before), tail);
    assert tail == ['?'] + "v" + "=" + id + [];
    MatchAtVPair('?', id, []);
  }

  /**
   * An empty `v=` is passed over by the pattern, where `searchParams.get('v')`
   * returns the empty string.
   */
  lemma EmptyVideoIdSkipped(u: Url, rest: seq<Param>)
    requires WellFormedQuery(u.query)
    requires u.query == [Param("v", "")] + rest
    ensures ExtractVideoId(u) == FirstNonEmpty(rest, "v") && Get(u.query, "v") == Some("")
  {
    ExtractVideoIdFromPairs(u);
    assert u.query[1..] == rest;
  }

  /** The rewritten URL carries `list` and `index`, so evaluating it again yields no rewrite. */
  lemma {:induction false} RewriteIsIdempotent(u: Url)
    requires Evaluate(u).Some?
    ensures Evaluate(Evaluate(u).value.modified).None?
  {
    var rw := Evaluate(u).value;
    var extra := [Param("list", PlaylistPrefix + rw.videoId), Param("index", PlaylistIndex)];
    assert extra[0].name == "list";
    HasAppend(u.query, extra, "list");
  }

  /** Hosts other than the two listed ones, and paths other than exactly `/watch`, are never rewritten. */
  lemma OtherHostsAndPathsPass(u: Url)
    requires u.host == "m.youtube.com" || u.path == "/watch/x"
    ensures Evaluate(u).None?
  {
  }

  lemma ExampleVideoId(u: Url)
    requires u == Url("www.youtube.com", "/watch", [Param("v", "abc123")])
    ensures IsYouTubeWatchUrl(u) && ExtractVideoId(u) == Some("abc123") && !HasPlaylistParams(u)
  {
    assert WellFormedQuery(u.query) by {
      assert Plain("v") && Plain("abc123") && '=' !in "v";
    }
    ExtractVideoIdFromPairs(u);
    assert FirstNonEmpty(u.query, "v") == Some("abc123");
  }

  /** The scenario `https://www.youtube.com/watch?v=abc123`. */
  lemma ExampleRedirect(u: Url)
    requires u == Url("www.youtube.com", "/watch", [Param("v", "abc123")])
    ensures Evaluate(u) == Some(Rewrite("abc123", Url("www.youtube.com", "/watch",
              [Param("v", "abc123"), Param("list", "RDabc123"), Param("index", "1")])))
  {
    ExampleVideoId(u);
    var id := ExtractVideoId(u).value;
    assert PlaylistPrefix + id == "RDabc123";
    assert u.query + [Param("list", "RDabc123"), Param("index", "1")]
           == [Param("v", "abc123"), Param("list", "RDabc123"), Param("index", "1")];
  }

  // ---------------------------------------------------------------------
  // The video cache.

  datatype RewriteRecord = RewriteRecord(originalUrl: Url, modifiedUrl: Url, timestamp: int)

  /** An entry `cleanCache` deletes: strictly older than five minutes. */
  predicate Expired(rec: RewriteRecord, now: int) {
    now - rec.timestamp > MaxAge
  }

  /** The cache `cleanCache` leaves behind: exactly the entries that are not expired, unchanged. */
  function Sweep(cache: map<string, RewriteRecord>, now: int): (r: map<string, RewriteRecord>)
    ensures forall k :: k in r ==> k in cache && r[k] == cache[k] && now - r[k].timestamp <= MaxAge
    ensures forall k :: k in cache && now - cache[k].timestamp <= MaxAge ==> k in r
    ensures r.Keys <= cache.Keys
  {
    map k | k in cache && !Expired(cache[k], now) :: cache[k]
  }

  /**
   * The record written by a redirect survives the sweep that follows it;
   * every other live entry is kept as it was, and an entry for the same
   * video id is overwritten.
   */
  lemma RecordSurvivesSweep(cache: map<string, RewriteRecord>, id: string, rec: RewriteRecord, now: int)
    requires rec.timestamp == now
    ensures var swept := Sweep(cache[id := rec], now);
            && id in swept && swept[id] == rec
            && forall k :: k != id && k in cache && !Expired(cache[k], now) ==> k in swept && swept[k] == cache[k]
  {
  }

  // ---------------------------------------------------------------------
  // Messages.

  /** A runtime message: its `type` and, for GET_VIDEO_INFO, its `videoId` (absent when not sent). */
  datatype Request = Request(msgType: string, videoId: Option<string>)

  datatype Response =
    | Status(enabled: bool)
    | VideoInfo(info: Option<RewriteRecord>)
    | Error(error: string)

  /** The message pushed to a tab's content script. */
  datatype TabMessage = TabUpdated(url: string)

  /** The background script's module state `state` (its unused `processedTabs` set is not modelled). */
  class BackgroundState {
    var enabled: bool
    var videoCache: map<string, RewriteRecord>

    constructor ()
      ensures enabled && videoCache == map[]
    {
      enabled := true;
      videoCache := map[];
    }

    /**
     * The `onBeforeRequest` listener: returns the redirect target, or None
     * when the request passes unchanged. A redirect records the rewrite under
     * its video id, then sweeps the cache.
     */
    method OnBeforeRequest(u: Url, now: int) returns (redirect: Option<Url>)
      modifies this`videoCache
      ensures !enabled ==> redirect.None?
      ensures enabled ==> redirect == if Evaluate(u).Some? then Some(Evaluate(u).value.modified) else None
      ensures redirect.None? ==> videoCache == old(videoCache)
      ensures redirect.Some? ==>
                && Evaluate(u).Some?
                && videoCache == Sweep(old(videoCache)[Evaluate(u).value.videoId := RewriteRecord(u, redirect.value, now)], now)
    {
      redirect := None;
      if !enabled {
        return;
      }
      var decision := Evaluate(u);
      if decision.None? {
        return;
      }
      RecordRewrite(decision.value.videoId, RewriteRecord(u, decision.value.modified, now), now);
      redirect := Some(decision.value.modified);
    }

    /** Stores `rec` under `videoId`, overwriting any earlier record, then runs `cleanCache`. */
    method RecordRewrite(videoId: string, rec: RewriteRecord, now: int)
      modifies this`videoCache
      ensures videoCache == Sweep(old(videoCache)[videoId := rec], now)
    {
      videoCache := videoCache[videoId := rec];
      CleanCache(now);
    }

    /** `cleanCache`: deletes, one key at a time, every entry more than five minutes old. */
    method CleanCache(now: int)
      modifies this`videoCache
      ensures videoCache == Sweep(old(videoCache), now)
    {
      var pending := videoCache.Keys;
      while pending != {}
        invariant pending <= old(videoCache).Keys
        invariant forall k :: k in videoCache <==> k in old(videoCache) && (k in pending || !Expired(old(videoCache)[k], now))
        invariant forall k :: k in videoCache ==> videoCache[k] == old(videoCache)[k]
        decreases pending
      {
        var key :| key in pending;
        if Expired(videoCache[key], now) {
          videoCache := videoCache - {key};
        }
        pending := pending - {key};
      }
      assert videoCache.Keys == Sweep(old(videoCache), now).Keys;
    }

    /** Two TOGGLE_ENABLED messages restore the flag, answering first with the flipped value and then the original. */
    method ToggleTwice() returns (first: Response, second: Response)
      modifies this`enabled
      ensures first == Status(!old(enabled)) && second == Status(old(enabled))
      ensures enabled == old(enabled)
    {
      first := OnMessage(Request("TOGGLE_ENABLED", None));
      second := OnMessage(Request("TOGGLE_ENABLED", None));
    }

    /**
     * The `tabs.onUpdated` listener: the TAB_UPDATED message it sends, if any.
     * A missing `status` or tab URL is None.
     */
    method OnTabUpdated(status: Option<string>, tabUrl: Option<string>) returns (sent: Option<TabMessage>)
      ensures sent.Some? <==> enabled && status == Some("complete") && tabUrl.Some? && Contains(tabUrl.value, "youtube.com")
      ensures sent.Some? ==> sent.value == TabUpdated(tabUrl.value)
    {
      sent := None;
      if !enabled {
        return;
      }
      if status == Some("complete") && tabUrl.Some? && Contains(tabUrl.value, "youtube.com") {
        sent := Some(TabUpdated(tabUrl.value));
      }
    }

    /** The `runtime.onMessage` listener: the response sent back. */
    method OnMessage(request: Request) returns (response: Response)
      modifies this`enabled
      ensures request.msgType == "TOGGLE_ENABLED" ==> enabled == !old(enabled)
      ensures request.msgType != "TOGGLE_ENABLED" ==> enabled == old(enabled)
      ensures request.msgType == "GET_STATUS" || request.msgType == "TOGGLE_ENABLED" ==> response == Status(enabled)
      ensures request.msgType == "GET_VIDEO_INFO" ==>
                response == VideoInfo(if request.videoId.Some? && request.videoId.value in videoCache
                                      then Some(videoCache[request.videoId.value]) else None)
      ensures request.msgType !in {"GET_STATUS", "TOGGLE_ENABLED", "GET_VIDEO_INFO"} ==>
                response == Error("Unknown message type")
    {
      match request.msgType {
        case "GET_STATUS" =>
          response := Status(enabled);
        case "TOGGLE_ENABLED" =>
          enabled := !enabled;
          response := Status(enabled);
        case "GET_VIDEO_INFO" =>
          var info := if request.videoId.Some? && request.videoId.value in videoCache
                      then Some(videoCache[request.videoId.value]) else None;
          response := VideoInfo(info);
        case _ =>
          response := Error("Unknown message type");
      }
    }
  }
}
