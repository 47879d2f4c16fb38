/**
 * The site header's navigation: the href each menu item links to, which
 * link is highlighted for the current location, and what a click on an
 * item does. The browser's location (protocol, host, current path) is a
 * parameter; opening a window or assigning the location is an outcome value.
 */
module Header {
  import opened Wrappers
  import opened Schema
  import opened Text
  import Uri

  /** A value placed in a template literal: null prints as "null". */
  function InTemplate(v: Option<string>): string {
    match v
    case Some(s) => s
    case None => "null"
  }

  /** The URL already names the http or https scheme. */
  predicate HasScheme(url: string) {
    StartsWith(url, "http://") || StartsWith(url, "https://")
  }

  /** Scheme defaulting for iframe targets: a URL without http(s):// gets "http://" in front. */
  function WithScheme(url: string): (r: string)
    ensures HasScheme(r)
    ensures HasScheme(url) ==> r == url
    ensures !HasScheme(url) ==> r == "http://" + url
  {
    if HasScheme(url) then url
    else
      assert ("http://" + url)[..7] == "http://";
      "http://" + url
  }

  /** Defaulting the scheme twice is the same as once. */
  lemma WithSchemeIdempotent(url: string)
    ensures WithScheme(WithScheme(url)) == WithScheme(url)
  {
  }

  /** The internal branch as written: reserved slugs first, then the general rule. */
  function InternalPath(link: Option<string>): string {
    if link == Some("home") then "/"
    else if link == Some("servicos") then "/servicos"
    else if link == Some("site") then "/site"
    else if link == Some("alex") then "/alex"
    else "/" + InTemplate(link)
  }

  /** The reserved slugs other than home follow the general "/" + link rule. */
  lemma InternalPathRule(link: Option<string>)
    ensures InternalPath(link) == if link == Some("home") then "/" else "/" + InTemplate(link)
  {
    if link == Some("servicos") {
      assert "/" + "servicos" == "/servicos";
    } else if link == Some("site") {
      assert "/" + "site" == "/site";
    } else if link == Some("alex") {
      assert "/" + "alex" == "/alex";
    }
  }

  /** The target URL of an iframe item: its externalUrl (null counts as ""), scheme defaulted. */
  function IframeTarget(item: MenuItem): (r: string)
    ensures HasScheme(r)
  {
    WithScheme(item.externalUrl.GetOr(""))
  }

  /**
   * getPathForMenuItem: internal items go to "/" for home and "/" + link
   * otherwise; iframe items go to "/iframe/" followed by the encoded target,
   * which the iframe page decodes back to the target; anything else is "#".
   */
  function PathForMenuItem(item: MenuItem): (r: string)
    ensures item.linkType == Internal ==>
      r == if item.internalLink == Some("home") then "/" else "/" + InTemplate(item.internalLink)
    ensures item.linkType == Iframe ==>
      StartsWith(r, "/iframe/") && '/' !in r[8..] && Uri.Decode(r[8..]) == Some(IframeTarget(item))
    ensures item.linkType != Internal && item.linkType != Iframe ==> r == "#"
  {
    if item.linkType == Internal then
      InternalPathRule(item.internalLink);
      InternalPath(item.internalLink)
    else if item.linkType == Iframe then
      var encoded := Uri.Encode(IframeTarget(item));
      Uri.DecodeEncode(IframeTarget(item));
      Uri.EncodeHasNoSlash(IframeTarget(item));
      assert ("/iframe/" + encoded)[8..] == encoded;
      assert ("/iframe/" + encoded)[..8] == "/iframe/";
      "/iframe/" + encoded
    else "#"
  }

  /** isActive: "/" only at exactly "/", any other path for every location it prefixes. */
  predicate IsActive(path: string, location: string)
    ensures IsActive(path, location) ==> StartsWith(location, path)
    ensures path != "/" ==> (IsActive(path, location) <==> StartsWith(location, path))
    ensures path == "/" ==> (IsActive(path, location) <==> location == "/")
  {
    (path == "/" && location == "/") || (path != "/" && StartsWith(location, path))
  }

  /** An item is highlighted on the location it links to. */
  lemma ActiveAtOwnPath(item: MenuItem)
    ensures IsActive(PathForMenuItem(item), PathForMenuItem(item))
  {
    var p := PathForMenuItem(item);
    assert p[..|p|] == p;
  }

  /** The home item is highlighted exactly at "/". */
  lemma HomeActiveOnlyAtRoot(item: MenuItem, location: string)
    requires item.linkType == Internal && item.internalLink == Some("home")
    ensures IsActive(PathForMenuItem(item), location) <==> location == "/"
  {
  }

  /**
   * Highlighting compares by prefix, not by path segment: the "site" item
   * is also highlighted on "/sitemap".
   */
  lemma PrefixHighlight()
    ensures IsActive(PathForMenuItem(MenuItem(3, "Site", 3, Internal, Some("site"), None)), "/sitemap")
  {
    assert "/sitemap"[..5] == "/site";
  }

  /** Items that link to "#" are never highlighted on a location that starts with "/". */
  lemma HashNeverActive(item: MenuItem, location: string)
    requires item.linkType != Internal && item.linkType != Iframe
    requires |location| > 0 && location[0] == '/'
    ensures !IsActive(PathForMenuItem(item), location)
  {
    assert PathForMenuItem(item) == "#";
  }

  /** What a click on a menu item does. */
  datatype ClickOutcome =
    | OpenInNewContext(url: Option<string>)  // window.open(externalUrl, '_blank'); no navigation here
    | Assign(href: string)                   // window.location.href = href
    | Fails                                  // the handler throws before navigating
    | FollowLink(href: string)               // the link's own client-side navigation

  /**
   * handleMenuItemClick. `openInIframe` is the item's flag of that name,
   * which stored menu items never carry (so it reads as false).
   */
  function Click(item: MenuItem, openInIframe: bool, protocol: string, host: string): (r: ClickOutcome)
    ensures item.linkType == External && !openInIframe ==> r == OpenInNewContext(item.externalUrl)
    ensures item.linkType != Internal && !(item.linkType == External && !openInIframe) ==>
      r == FollowLink(PathForMenuItem(item))
    ensures item.linkType == Internal ==> (r == Fails <==> item.internalLink.None?)
  {
    if item.linkType == External && !openInIframe then OpenInNewContext(item.externalUrl)
    else if item.linkType == Internal then
      match item.internalLink
      case None => Fails
      case Some(link) =>
        var path :=
          if link == "home" then ""
          else if link == "servicos" then "servicos"
          else if link == "site" then "site"
          else if link == "alex" then "alex"
          else link;
        Assign(protocol + "//" + host + "/" + (if StartsWith(path, "/") then path[1..] else path))
    else FollowLink(PathForMenuItem(item))
  }

  /**
   * For an internal link without a leading "/", the click assigns the
   * absolute form of the link's own href.
   */
  lemma ClickMatchesHref(item: MenuItem, openInIframe: bool, protocol: string, host: string)
    requires item.linkType == Internal && item.internalLink.Some?
    requires !StartsWith(item.internalLink.value, "/")
    ensures Click(item, openInIframe, protocol, host) == Assign(protocol + "//" + host + PathForMenuItem(item))
  {
    var link := item.internalLink.value;
    if link == "home" {
      assert !StartsWith("", "/");
      assert protocol + "//" + host + "/" + "" == protocol + "//" + host + "/";
    } else {
      assert protocol + "//" + host + "/" + link == protocol + "//" + host + ("/" + link);
    }
  }

  /** A link stored with a leading "/" loses exactly that one slash before the host's "/" is put in front. */
  lemma ClickStripsOneSlash(item: MenuItem, openInIframe: bool, protocol: string, host: string, rest: string)
    requires item.linkType == Internal && item.internalLink == Some("/" + rest)
    ensures Click(item, openInIframe, protocol, host) == Assign(protocol + "//" + host + "/" + rest)
  {
    var link := "/" + rest;
    assert link[..1] == "/" && link[1..] == rest;
    assert link != "home" && link != "servicos" && link != "site" && link != "alex" by {
      assert link[0] == '/';
    }
  }
}
