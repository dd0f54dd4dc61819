/**
 * The content script that runs on YouTube pages: it recognises the synthetic
 * mix playlist the background script appended, strips `list` and `index`
 * from the address bar without a reload, patches the page title, and
 * debounces all of this behind a single two-second timer that every
 * navigation re-arms.
 */
module Content {
  import opened Wrappers
  import opened Text
  import opened SearchParams

  /** Milliseconds between the last navigation signal and the cleanup. */
  const CleanupDelay: int := 2000

  /**
   * `isArtificialPlaylist`: the first `list` and the first `v` are both
   * non-empty (JavaScript truthiness), `list` starts with `RD` and contains
   * the video id. The `index` parameter is not consulted. An artificial
   * page has both parameters, and the synthetic `list=RD<id>` next to a
   * non-empty `v=<id>` is always recognised.
   */
  predicate IsArtificialPlaylist(u: Url)
    ensures IsArtificialPlaylist(u) ==> Has(u.query, "list") && Has(u.query, "v")
    ensures var id := Get(u.query, "v");
            id.Some? && id.value != "" && Get(u.query, "list") == Some("RD" + id.value) ==> IsArtificialPlaylist(u)
  {
    var list := Get(u.query, "list");
    var videoId := Get(u.query, "v");
    if list.Some? && videoId.Some? then
      ContainsSelfSuffix("RD", videoId.value);
      && list.value != "" && videoId.value != ""
      && StartsWith(list.value, "RD") && Contains(list.value, videoId.value)
    else false
  }

  /** Whether the page counts as artificial does not depend on `index`. */
  lemma {:induction false} IndexIsIgnored(u: Url)
    ensures IsArtificialPlaylist(u) <==> IsArtificialPlaylist(Url(u.host, u.path, Delete(u.query, "index")))
  {
    DeleteKeepsOthers(u.query, "index", "list");
    DeleteKeepsOthers(u.query, "index", "v");
  }

  /**
   * The address after `searchParams.delete('list')` and
   * `searchParams.delete('index')`: every pair with either name is gone,
   * every other pair is kept in order, and an address without either name
   * is left as it is.
   */
  function CleanedUrl(u: Url): (r: Url)
    ensures r.host == u.host && r.path == u.path
    ensures !Has(r.query, "list") && !Has(r.query, "index")
    ensures forall p {:trigger p in r.query} :: p in r.query <==> p in u.query && p.name != "list" && p.name != "index"
    ensures !Has(u.query, "list") && !Has(u.query, "index") ==> r == u
    ensures !IsArtificialPlaylist(r)
  {
    var withoutList := Delete(u.query, "list");
    var q := Delete(withoutList, "index");
    DeleteKeepsOthers(withoutList, "index", "list");
    Url(u.host, u.path, q)
  }

  /** Cleaning keeps `get` of every other name. */
  lemma {:induction false} CleanedUrlKeepsOthers(u: Url, name: string)
    requires name != "list" && name != "index"
    ensures Get(CleanedUrl(u).query, name) == Get(u.query, name)
  {
    DeleteKeepsOthers(u.query, "list", name);
    DeleteKeepsOthers(Delete(u.query, "list"), "index", name);
  }

  /**
   * `updatePageTitle` as a function of the title and of whether an
   * `h1.title` element exists: the title changes only when the heading is
   * there and the title contains `Mix -`, and then it loses at least the
   * four characters of a match.
   */
  function UpdatedTitle(title: string, headingPresent: bool): (r: string)
    ensures !(headingPresent && Contains(title, "Mix -")) ==> r == title
    ensures headingPresent && Contains(title, "Mix -") ==> |r| <= |title| - 4
  {
    if headingPresent && Contains(title, "Mix -") then
      ReplaceFirstMixShortens(title);
      ReplaceFirstMix(title)
    else title
  }

  /** The title `Mix - <song>` becomes `<song>`. */
  lemma {:induction false} MixPrefixStripped(song: string)
    requires song == [] || !IsSpace(song[0])
    ensures UpdatedTitle("Mix - " + song, true) == song
  {
    var title := "Mix - " + song;
    assert title == "Mix" + " " + "-" + " " + song;
    assert OccursAt(title, "Mix -", 0);
    ReplaceFirstMixStripsPrefix(" ", " ", song);
  }

  /**
   * The guard looks for `Mix -`, but the replacement removes the leftmost
   * match of the looser pattern: in `Mix-<rest>` it is the leading `Mix-`
   * that goes, even when `<rest>` holds the `Mix -` the guard found.
   */
  lemma {:induction false} EarlierLooseMatchRemoved(rest: string)
    requires Contains(rest, "Mix -") && !IsSpace(rest[0])
    ensures UpdatedTitle("Mix-" + rest, true) == rest
  {
    ContainsSelfSuffix("Mix-", rest);
    var i :| OccursAt(rest, "Mix -", i);
    assert OccursAt("Mix-" + rest, "Mix -", i + 4) by {
      assert ("Mix-" + rest)[i + 4..i + 4 + 5] == rest[i..i + 5];
    }
    assert "Mix-" + rest == "Mix" + "" + "-" + "" + rest;
    ReplaceFirstMixStripsPrefix("", "", rest);
  }

  /** The message the background script sends when a YouTube tab finishes loading. */
  datatype Message = Message(msgType: string)

  /**
   * The state of one page as the content script sees and changes it: the
   * address (`window.location.href`), `document.title`, whether the
   * `h1.title` and `ytd-playlist-panel-renderer` elements exist, whether the
   * panel has been hidden, and the deadline of the one pending cleanup
   * timer, if any.
   */
  class ContentScript {
    var url: Url
    var title: string
    var titleHeadingPresent: bool
    var panelPresent: bool
    var panelHidden: bool
    var cleanupTimer: Option<int>

    /** `init`: patches the history API, listens for `popstate` and messages, and schedules the first cleanup. */
    constructor Init(url: Url, title: string, titleHeadingPresent: bool, panelPresent: bool, now: int)
      ensures this.url == url && this.title == title
      ensures this.titleHeadingPresent == titleHeadingPresent && this.panelPresent == panelPresent
      ensures !panelHidden
      ensures cleanupTimer == Some(now + CleanupDelay)
    {
      this.url := url;
      this.title := title;
      this.titleHeadingPresent := titleHeadingPresent;
      this.panelPresent := panelPresent;
      panelHidden := false;
      cleanupTimer := Some(now + CleanupDelay);
    }

    /** `scheduleCleanup`: any pending timer is cleared and one new timer is set to fire after the delay. */
    method ScheduleCleanup(now: int)
      modifies this`cleanupTimer
      ensures cleanupTimer == Some(now + CleanupDelay)
    {
      cleanupTimer := Some(now + CleanupDelay);
    }

    /** `handleNavigation` */
    method HandleNavigation(now: int)
      modifies this`cleanupTimer
      ensures cleanupTimer == Some(now + CleanupDelay)
    {
      ScheduleCleanup(now);
    }

    /**
     * The address changes to `newUrl` within the page, and the cleanup is
     * rescheduled: the patched `history.pushState` and
     * `history.replaceState` (the original call, then `handleNavigation`),
     * and a `popstate` event reaching its listener.
     */
    method Navigate(newUrl: Url, now: int)
      modifies this`url, this`cleanupTimer
      ensures url == newUrl && cleanupTimer == Some(now + CleanupDelay)
    {
      url := newUrl;
      HandleNavigation(now);
    }

    /** `handleMessage`: only `TAB_UPDATED` reschedules; any other message is ignored. */
    method HandleMessage(request: Message, now: int)
      modifies this`cleanupTimer
      ensures request.msgType == "TAB_UPDATED" ==> cleanupTimer == Some(now + CleanupDelay)
      ensures request.msgType != "TAB_UPDATED" ==> cleanupTimer == old(cleanupTimer)
    {
      if request.msgType == "TAB_UPDATED" {
        ScheduleCleanup(now);
      }
    }

    /** `updatePageTitle` */
    method UpdatePageTitle()
      modifies this`title
      ensures title == UpdatedTitle(old(title), titleHeadingPresent)
    {
      if titleHeadingPresent && Contains(title, "Mix -") {
        title := ReplaceFirstMix(title);
      }
    }

    /** `updateUIElements`: hides the panel while the address still looks artificial, then updates the title. */
    method UpdateUIElements()
      modifies this`panelHidden, this`title
      ensures panelHidden == (old(panelHidden) || (panelPresent && IsArtificialPlaylist(url)))
      ensures title == UpdatedTitle(old(title), titleHeadingPresent)
    {
      if panelPresent && IsArtificialPlaylist(url) {
        panelHidden := true;
      }
      UpdatePageTitle();
    }

    /**
     * `cleanupUrl`: on an artificial address, removes `list` and `index`
     * through the patched `replaceState` (which re-arms the timer) and then
     * updates the page. By then the address is clean, so the panel is never
     * hidden. On any other address nothing changes.
     */
    method CleanupUrl(now: int)
      modifies this`url, this`cleanupTimer, this`panelHidden, this`title
      ensures old(IsArtificialPlaylist(url)) ==>
                && url == CleanedUrl(old(url))
                && cleanupTimer == Some(now + CleanupDelay)
                && title == UpdatedTitle(old(title), titleHeadingPresent)
      ensures !old(IsArtificialPlaylist(url)) ==>
                url == old(url) && cleanupTimer == old(cleanupTimer) && title == old(title)
      ensures panelHidden == old(panelHidden)
      ensures !IsArtificialPlaylist(url)
    {
      if IsArtificialPlaylist(url) {
        Navigate(CleanedUrl(url), now);
        UpdateUIElements();
      }
    }

    /** The pending timer fires at its deadline, which is returned, and runs the cleanup. */
    method FireTimer() returns (firedAt: int)
      requires cleanupTimer.Some?
      modifies this`url, this`cleanupTimer, this`panelHidden, this`title
      ensures firedAt == old(cleanupTimer).value
      ensures old(IsArtificialPlaylist(url)) ==>
                && url == CleanedUrl(old(url))
                && cleanupTimer == Some(firedAt + CleanupDelay)
                && title == UpdatedTitle(old(title), titleHeadingPresent)
      ensures !old(IsArtificialPlaylist(url)) ==>
                url == old(url) && cleanupTimer == None && title == old(title)
      ensures panelHidden == old(panelHidden)
    {
      firedAt := cleanupTimer.value;
      cleanupTimer := None;
      CleanupUrl(firedAt);
    }
  }

  /**
   * A page loads on an artificial address at `t`; the background script's
   * `TAB_UPDATED` arrives at `t + 500`. Only one cleanup runs, at
   * `t + 2500`; it cleans the address and, through `replaceState`, arms one
   * more timer, whose run at `t + 4500` changes nothing. No timer is left.
   */
  method DebounceScenario(u: Url, title: string, t: int) returns (firstRun: int, secondRun: int, finalUrl: Url, pending: Option<int>)
    requires IsArtificialPlaylist(u)
    ensures firstRun == t + 2500 && secondRun == t + 4500
    ensures finalUrl == CleanedUrl(u) && pending == None
  {
    var page := new ContentScript.Init(u, title, false, false, t);
    page.HandleMessage(Message("TAB_UPDATED"), t + 500);
    firstRun := page.FireTimer();
    secondRun := page.FireTimer();
    finalUrl := page.url;
    pending := page.cleanupTimer;
  }
}
