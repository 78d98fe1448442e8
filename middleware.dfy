/**
 * The request guard that runs before every matched route: it either redirects the browser or lets the
 * request through to the page.
 */
module Middleware {
  import opened Outcomes
  import opened Protocol

  datatype Response = Redirect(location: string) | PassThrough

  const Home: string := "/"
  const Dashboard: string := "/dashboard"

  /**
   * The decision, with early returns in source order: a signed-in visitor of the home page goes to the
   * dashboard; a signed-out visitor of any path starting with "/dashboard" goes home; everything else passes,
   * whether or not the route matcher calls it public.
   */
  function Route(userId: Option<string>, pathname: string, isPublicRoute: bool): (r: Response)
    ensures r == Redirect(Dashboard) <==> SignedIn(userId) && pathname == Home
    ensures r == Redirect(Home) <==> !SignedIn(userId) && Dashboard <= pathname
    ensures r == PassThrough <==> !(SignedIn(userId) && pathname == Home) && !(!SignedIn(userId) && Dashboard <= pathname)
  {
    if SignedIn(userId) && pathname == Home then Redirect(Dashboard)
    else if !SignedIn(userId) && Dashboard <= pathname then Redirect(Home)
    else if isPublicRoute then PassThrough
    else PassThrough
  }

  /** The public-route check decides nothing: both answers of the matcher give the same response. */
  lemma PublicRouteIrrelevant(userId: Option<string>, pathname: string)
    ensures Route(userId, pathname, true) == Route(userId, pathname, false)
  {
  }

  /** Following a redirect under the same sign-in state never redirects again: there is no redirect loop. */
  lemma {:induction false} NoRedirectLoop(userId: Option<string>, pathname: string, isPublic: bool, nextIsPublic: bool)
    requires Route(userId, pathname, isPublic).Redirect?
    ensures Route(userId, Route(userId, pathname, isPublic).location, nextIsPublic) == PassThrough
  {
    var target := Route(userId, pathname, isPublic).location;
    if SignedIn(userId) {
      assert target == Dashboard;
      assert target != Home by { assert |target| != |Home|; }
    } else {
      assert target == Home;
      assert !(Dashboard <= target) by { assert |Home| < |Dashboard|; }
    }
  }

  /** The dashboard guard is a prefix test, so it also covers sibling paths such as "/dashboards". */
  lemma PrefixCoversSiblings()
    ensures Route(None, "/dashboards", false) == Redirect(Home)
    ensures Route(Some(""), "/dashboard/decks/7", false) == Redirect(Home)
    ensures Route(Some("user_1"), "/dashboard", false) == PassThrough
  {
    assert Dashboard <= "/dashboards";
    assert Dashboard <= "/dashboard/decks/7";
  }
}
