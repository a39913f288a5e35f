/**
 Choosing the item-page map viewer, the basemap and the results-page map
 selector.
 */
module Viewer {
  import opened Options
  import opened Documents
  import Access

  /** `openlayers_container?`: the OpenLayers viewer is used for a document
      whose item viewer declares PMTiles or a Cloud Optimized GeoTIFF; with
      no document it is never used. */
  function OpenlayersContainer(doc: Option<Document>): (r: bool)
    ensures doc.None? ==> !r
    ensures doc.Some? ==> (r <==> doc.value.itemViewer.pmtiles || doc.value.itemViewer.cog)
  {
    doc.Some? && (doc.value.itemViewer.pmtiles || doc.value.itemViewer.cog)
  }

  /** `geoblacklight_basemap`: the configured provider, or "positron" when
      none is configured. An empty provider name is truthy in Ruby and is
      kept. */
  function GeoblacklightBasemap(provider: Option<string>): (r: string)
    ensures provider.Some? ==> r == provider.value
    ensures r == "positron" <==> provider.None? || provider.value == "positron"
  {
    match provider
    case Some(p) => p
    case None => "positron"
  }

  /** The map `div` both viewer templates produce: its `id` and its data
      attributes (`mapKind` is the `data-map` value). `protocol` holds the viewer protocol before Rails'
      `camelize`. */
  datatype MapDiv = MapDiv(
    id: string,
    mapKind: string,
    protocol: string,
    url: string,
    layerId: string,
    mapGeom: string,
    catalogPath: string,
    available: bool,
    basemap: string,
    leafletOptions: string)

  /** The two item-page templates, `leaflet_viewer` and `ol_viewer`. */
  datatype Template = Leaflet | OpenLayers

  /** `leaflet_viewer` and `ol_viewer`: the item map div. The page starts
      the Leaflet viewer on the div with id "map" and the OpenLayers viewer
      on the one with id "ol-map"; the data both carry are the same. */
  function ViewerDiv(template: Template, doc: Document, ctx: Context): (r: MapDiv)
    ensures r.id == "ol-map" <==> template.OpenLayers?
    ensures r.id == "map" <==> template.Leaflet?
    ensures r.mapKind == "item"
    ensures r.protocol == doc.viewerProtocol && r.url == doc.viewerEndpoint
    ensures r.layerId == doc.wxsIdentifier && r.mapGeom == doc.geometryGeojson
    ensures r.catalogPath == ctx.catalogPath && r.leafletOptions == ctx.leafletOptions
    ensures r.available == Access.DocumentAvailable(doc, ctx.signedIn)
    ensures r.basemap == GeoblacklightBasemap(ctx.basemapProvider)
  {
    var id := match template case Leaflet => "map" case OpenLayers => "ol-map";
    MapDiv(id, "item", doc.viewerProtocol, doc.viewerEndpoint, doc.wxsIdentifier,
           doc.geometryGeojson, ctx.catalogPath, Access.DocumentAvailable(doc, ctx.signedIn),
           GeoblacklightBasemap(ctx.basemapProvider), ctx.leafletOptions)
  }

  /** The two templates carry identical data and differ only in the `id`
      that tells the page which viewer to start. */
  lemma TemplatesDifferOnlyInId(doc: Document, ctx: Context)
    ensures ViewerDiv(OpenLayers, doc, ctx).(id := "map") == ViewerDiv(Leaflet, doc, ctx)
    ensures ViewerDiv(OpenLayers, doc, ctx) != ViewerDiv(Leaflet, doc, ctx)
  {
  }

  /** What `viewer_container` yields: a rendered div, or the NoMethodError
      the Leaflet template raises when it reads a field of a nil document. */
  datatype Rendering = Rendered(div: MapDiv) | NoMethodErrorOnNil

  /** `viewer_container`: the OpenLayers div for a document whose viewer
      declares PMTiles or COG, the Leaflet div for any other document. */
  function ViewerContainer(doc: Option<Document>, ctx: Context): (r: Rendering)
    ensures doc.None? <==> r.NoMethodErrorOnNil?
    ensures r.Rendered? ==>
      (r.div.id == "ol-map" <==> doc.value.itemViewer.pmtiles || doc.value.itemViewer.cog)
    ensures r.Rendered? ==> (r.div.id == "ol-map" || r.div.id == "map")
    ensures r.Rendered? ==>
      r.div.available == Access.DocumentAvailable(doc.value, ctx.signedIn) &&
      r.div.basemap == GeoblacklightBasemap(ctx.basemapProvider)
    ensures r.Rendered? ==>
      r.div == ViewerDiv(if OpenlayersContainer(doc) then OpenLayers else Leaflet, doc.value, ctx)
  {
    if OpenlayersContainer(doc) then Rendered(ViewerDiv(OpenLayers, doc.value, ctx))
    else if doc.None? then NoMethodErrorOnNil
    else Rendered(ViewerDiv(Leaflet, doc.value, ctx))
  }

  /** `results_js_map_selector`: "bookmarks" on the bookmarks page, "index"
      on every other page. */
  function ResultsJsMapSelector(controllerName: string): (r: string)
    ensures r == "bookmarks" <==> controllerName == "bookmarks"
    ensures r == "bookmarks" || r == "index"
  {
    if controllerName == "bookmarks" then "bookmarks" else "index"
  }
}
