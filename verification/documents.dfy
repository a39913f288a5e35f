/**
 The document record the helpers read (the view's `@document`) and the
 values they take from outside it: the sign-in state, the Blacklight
 configuration and the global Settings, passed in explicitly.
 */
module Documents {
  import opened Options
  import opened RubyValues

  /** Whether the document's item viewer declares a PMTiles or a Cloud
      Optimized GeoTIFF reference (a present reference is truthy). */
  datatype ItemViewer = ItemViewer(pmtiles: bool, cog: bool)

  datatype Document = Document(
    isPublic: bool,
    sameInstitution: bool,
    downloadable: bool,
    inspectable: bool,
    itemViewer: ItemViewer,
    viewerProtocol: string,
    viewerEndpoint: string,
    wxsIdentifier: string,
    geometryGeojson: string,
    fields: map<string, Value>)

  /** `document[name]`: a field that is not indexed reads as nil. */
  function Field(doc: Document, name: string): Value {
    if name in doc.fields then doc.fields[name] else Nil
  }

  /** The request and configuration a helper sees:
      - `signedIn`: `user_signed_in?`
      - `basemapProvider`: `blacklight_config.basemap_provider`
      - `catalogPath`: `search_catalog_path`
      - `leafletOptions`: `Settings.LEAFLET`, carried as opaque text
      - `useGeomForRelationsIcon`: `Settings.USE_GEOM_FOR_RELATIONS_ICON`
      - `geomTypeField`: `Settings.FIELDS.GEOM_TYPE` */
  datatype Context = Context(
    signedIn: bool,
    basemapProvider: Option<string>,
    catalogPath: string,
    leafletOptions: string,
    useGeomForRelationsIcon: bool,
    geomTypeField: string)
}
