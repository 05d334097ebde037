/**
 * The `chrome.tabs.onUpdated` listener in background.js: once a tab has
 * finished loading, pick the right-padding rule for the pitch cards from
 * the page's path.
 */
module CssRoute {
  import opened Wrappers
  import opened Text

  /** The injected rule: `padding-right: {px}px` on the pitch cards. */
  datatype PaddingRule = PaddingRight(px: nat)

  /** The guard of the listener: status "complete" and a truthy (non-empty) `tab.url`. */
  predicate Loaded(status: Option<string>, url: Option<string>)
  {
    status == Some("complete") && url.Some? && url.value != ""
  }

  /** Team views: "/my-team" and every path under "/entry/". */
  predicate IsTeamView(path: string)
  {
    path == "/my-team" || StartsWith(path, "/entry/")
  }

  /**
   * The rule inserted for one update event. `pathname` is `new URL(tab.url)
   * .pathname`, None when that constructor throws.
   */
  function RuleFor(status: Option<string>, url: Option<string>, pathname: Option<string>): Option<PaddingRule>
  {
    if Loaded(status, url) && pathname.Some? then
      var path := pathname.value;
      if IsTeamView(path) then Some(PaddingRight(12))
      else if path == "/transfers" then Some(PaddingRight(0))
      else None
    else None
  }

  /**
   * Nothing is inserted before the page is loaded; once it is, "/my-team"
   * and "/entry/..." get 12px, "/transfers" gets 0px, and every other path
   * gets nothing. The two rules never apply to the same path.
   */
  lemma RuleForSpec(status: Option<string>, url: Option<string>, path: string)
    ensures !Loaded(status, url) ==> RuleFor(status, url, Some(path)) == None
    ensures Loaded(status, url) ==>
              (RuleFor(status, url, Some(path)) == Some(PaddingRight(12)) <==> IsTeamView(path))
              && (RuleFor(status, url, Some(path)) == Some(PaddingRight(0)) <==> path == "/transfers")
              && (RuleFor(status, url, Some(path)) == None <==> !IsTeamView(path) && path != "/transfers")
  {
    assert !StartsWith("/transfers", "/entry/") by {
      assert "/transfers"[1] != "/entry/"[1];
    }
  }
}
