/**
 * The sitemap (app/sitemap.ts): one entry per route of the site. The time stamp is the
 * clock reading the handler is called at, given here as a parameter.
 */
module Sitemap {
  const Origin: string := "https://bluepms.com"

  /** The routes the sitemap lists. */
  const Routes: seq<string> := ["", "/contact"]

  /** One sitemap entry; `lastModified` is the clock reading, as milliseconds. */
  datatype Entry = Entry(url: string, lastModified: int, changeFrequency: string, priority: real)

  function EntryFor(route: string, now: int): (e: Entry)
    ensures e.url == Origin + route && e.url[..|Origin|] == Origin
    ensures e.lastModified == now && e.changeFrequency == "weekly"
    ensures e.priority == 1.0 <==> route == ""
    ensures e.priority == 1.0 || e.priority == 0.8
  {
    Entry(Origin + route, now, "weekly", if route == "" then 1.0 else 0.8)
  }

  /** `routes.map(...)`. */
  function SitemapOf(routes: seq<string>, now: int): (es: seq<Entry>)
    ensures |es| == |routes|
    ensures forall i :: 0 <= i < |es| ==> es[i] == EntryFor(routes[i], now)
  {
    seq(|routes|, i requires 0 <= i < |routes| => EntryFor(routes[i], now))
  }

  /** Every entry is weekly, stamped now, and on the site's origin; only the root has priority 1. */
  lemma SitemapEntries(routes: seq<string>, now: int, i: nat)
    requires i < |routes|
    ensures var e := SitemapOf(routes, now)[i];
      && e.url == Origin + routes[i]
      && e.changeFrequency == "weekly" && e.lastModified == now
      && (e.priority == 1.0 <==> routes[i] == "")
      && (routes[i] != "" ==> e.priority == 0.8)
  {
  }

  /** Different routes have different urls. */
  lemma UrlsDistinct(routes: seq<string>, now: int, i: nat, j: nat)
    requires i < |routes| && j < |routes| && routes[i] != routes[j]
    ensures SitemapOf(routes, now)[i].url != SitemapOf(routes, now)[j].url
  {
    var es := SitemapOf(routes, now);
    assert es[i].url[|Origin|..] == routes[i];
    assert es[j].url[|Origin|..] == routes[j];
  }

  /** The site's sitemap: the home page with priority 1, then the contact page with 0.8. */
  lemma SiteSitemap(now: int)
    ensures var es := SitemapOf(Routes, now);
      && |es| == 2
      && es[0] == Entry(Origin, now, "weekly", 1.0)
      && es[1] == Entry(Origin + "/contact", now, "weekly", 0.8)
  {
    var es := SitemapOf(Routes, now);
    assert Routes[0] == "" && Origin + "" == Origin;
    assert Routes[1] == "/contact";
  }
}
