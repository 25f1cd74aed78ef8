/**
 * The catalog entities shared by the server and the client: a show
 * (`Item`) with its external-site references, the feed content attached
 * to it, and the per-site metadata of the catalog.
 *
 * Dates are reduced to a year and a month; a begin date the date library
 * cannot parse is `None`. Optional string fields whose absence and
 * emptiness the code treats alike (both falsy) are plain strings, with ""
 * standing for both.
 */
module Types {
  import opened Common

  /** A month number, 1 (January) to 12 (December). */
  type Month = m: int | 1 <= m <= 12 witness 1

  /** The year and month of a calendar date. */
  datatype Date = Date(year: int, month: Month)

  /** One external-site reference of a show (`BangumiSite`): site name and the id on that site. */
  datatype Site = Site(site: string, id: string)

  /** A torrent enclosure of a feed item. */
  datatype Enclosure = Enclosure(url: string, mimeType: string, length: string)

  /** One entry of a release feed (`RssItem`). */
  datatype RssItem = RssItem(
    title: string,
    description: string,
    link: string,
    pubDate: string,
    guid: Option<string>,
    enclosure: Option<Enclosure>)

  /** A parsed release feed (`RssContent`). */
  datatype RssContent = RssContent(title: string, description: string, link: string, items: seq<RssItem>)

  /** The feed placeholder stored for a confirmed-empty feed. */
  const EmptyRssContent := RssContent("", "", "", [])

  /** A catalog show (`Item`). `weekday` is the client-side broadcast weekday, 0 = Sunday. */
  datatype Item = Item(
    id: Option<string>,
    title: string,
    zhHansTitles: seq<string>,
    begin: Option<Date>,
    end: string,
    broadcast: string,
    weekday: int,
    sites: seq<Site>,
    image: Option<string>,
    previewEmbedLink: Option<string>,
    rssContent: Option<RssContent>)

  /** The kind of an external site (`SiteType`). */
  datatype SiteType = Info | OnAir | Resource

  /** Catalog metadata of one external site (`SiteItem`); `broadcast` is "" when absent. */
  datatype SiteMetaEntry = SiteMetaEntry(title: string, urlTemplate: string, siteType: SiteType, broadcast: string)
}
