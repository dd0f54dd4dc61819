/**
 * How the two scripts fit together: the address the request interceptor
 * redirects to is one the content script recognises as artificial, and
 * cleaning it gives back the address the user asked for.
 */
module Lifecycle {
  import opened Wrappers
  import opened Text
  import opened SearchParams
  import opened Background
  import opened Content

  /**
   * When `get('v')` reads the same id the pattern extracted, the redirect
   * target counts as artificial and its cleanup restores the original
   * address exactly.
   */
  lemma {:induction false} RewriteThenCleanup(u: Url)
    requires Evaluate(u).Some?
    requires Get(u.query, "v") == Some(Evaluate(u).value.videoId)
    ensures IsArtificialPlaylist(Evaluate(u).value.modified)
    ensures CleanedUrl(Evaluate(u).value.modified) == u
  {
    var id := Evaluate(u).value.videoId;
    var list := PlaylistPrefix + id;
    var extra := [Param("list", list), Param("index", PlaylistIndex)];
    var m := Evaluate(u).value.modified;
    assert m.query == u.query + extra;
    GetAppend(u.query, extra, "list");
    GetAppend(u.query, extra, "v");
    assert Get(m.query, "list") == Some(list);
    assert Get(m.query, "v") == Some(id);
    assert StartsWith(list, "RD");
    ContainsSelfSuffix(PlaylistPrefix, id);
    DeleteTwoAppended(u.query, "list", list, "index", PlaylistIndex);
  }

  /** On a well-formed query whose first `v` is not empty, the round trip always closes. */
  lemma WellFormedRewriteThenCleanup(u: Url)
    requires WellFormedQuery(u.query)
    requires Evaluate(u).Some?
    requires Get(u.query, "v") != Some("")
    ensures IsArtificialPlaylist(Evaluate(u).value.modified)
    ensures CleanedUrl(Evaluate(u).value.modified) == u
  {
    ExtractVideoIdFromPairs(u);
    FirstNonEmptyIsFirst(u.query, "v");
    RewriteThenCleanup(u);
  }

  /** When the first `v` has a non-empty value, it is the first non-empty one. */
  lemma {:induction false} FirstNonEmptyIsFirst(ps: seq<Param>, name: string)
    requires FirstNonEmpty(ps, name).Some?
    requires Get(ps, name) != Some("")
    ensures Get(ps, name) == FirstNonEmpty(ps, name)
  {
    if ps[0].name != name {
      FirstNonEmptyIsFirst(ps[1..], name);
    }
  }

  /**
   * With an empty first `v` (`?v=&v=abc`) the interceptor still redirects,
   * using the second id, but the content script reads the empty first `v`
   * and leaves the synthetic `list` and `index` in the address bar.
   */
  lemma {:induction false} EmptyFirstVideoIdKeepsPlaylist(u: Url)
    requires Evaluate(u).Some?
    requires Get(u.query, "v") == Some("")
    ensures !IsArtificialPlaylist(Evaluate(u).value.modified)
    ensures Has(Evaluate(u).value.modified.query, "list")
  {
    var rw := Evaluate(u).value;
    var extra := [Param("list", PlaylistPrefix + rw.videoId), Param("index", PlaylistIndex)];
    GetAppend(u.query, extra, "v");
    HasAppend(u.query, extra, "list");
    assert extra[0].name == "list";
  }
}
