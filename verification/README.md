# GeoBlacklight view-helper rules in Dafny

This project models the decision rules inside GeoBlacklight's view helper
module `GeoblacklightHelper` (`app/helpers/geoblacklight_helper.rb`), the
helpers the catalog pages use to decide what a visitor may see and how an
item is shown:

- **access gating**: whether a document is available, downloadable and has
  its attribute table shown, given its public, same-institution,
  downloadable and inspectable flags and whether the user is signed in
  (`access.dfy`);
- **viewer dispatch**: the OpenLayers viewer for documents whose item viewer
  declares PMTiles or a Cloud Optimized GeoTIFF, the Leaflet viewer for all
  others, the basemap default and the results-page map selector
  (`viewer.dfy`);
- **icon-name choice**: which icon name `relations_icon` and
  `geoblacklight_icon` hand to the icon library (`icons.dfy`);
- **field text**: the space-joined field values behind `snippit` (capped at
  150 characters) and `render_value_as_truncate_abstract` (no cap), and the
  IIIF full-size JPEG URL that `iiif_jpg_url` derives from an `info.json`
  endpoint (`field_text.dfy`).

The document is a plain record of fields (`documents.dfy`); the sign-in
state, the Blacklight configuration and the global `Settings` values a
helper reads are fields of an explicit `Context`. Ruby values are a small
datatype (`nil`, booleans, strings, arrays) with Ruby's truthiness
(`RubyValues.Truthy`), ActiveSupport's `blank?` (`RubyValues.Blank`),
`Kernel#Array` (`RubyValues.ToArray`), `Array#flatten`
(`RubyValues.Flatten`) and the `to_s` that `Array#join` applies to each
element, with `nil.to_s` empty (`RubyValues.ToS`), all in `ruby_values.dfy`;
the string operations the helpers call (`String#sub!`, `Array#join`,
ActiveSupport's `String#truncate`) are in `ruby_strings.dfy`, on strings as
sequences of Unicode scalar values. Reading a field, `document[name]`, is
`Documents.Field`, where a field that is not indexed reads as nil (as
`relations_icon` relies on at line 232). The text behind `snippit` and
`render_value_as_truncate_abstract` (lines 73 and 164),
`Array(value).flatten.join(" ")`, is `FieldText.JoinedValue`, built on
`FieldText.Leaves`, the leaves of `Array(value).flatten`.

Two behaviours of the code as written are stated explicitly:

- `iiif_jpg_url` uses `sub!`, which edits the endpoint string in place and
  returns nil when nothing was replaced. The model returns both the value
  and the edited receiver, and `FieldText.IiifSecondCallNil` shows that a
  second call on the same string (as `download_link_iiif` makes, for the
  link and for its `contentUrl`) yields nil. Whether the two calls see the
  same string object depends on how document references are cached, which
  is not part of this model.
- `viewer_container` without a document falls through to the Leaflet
  template, which reads fields of the nil document; the model returns
  `NoMethodErrorOnNil` there.

## Model

| member | source | states |
|---|---|---|
| Access.DocumentAvailable | app/helpers/geoblacklight_helper.rb:4-6 | A public document is available whether or not the user is signed in; a non-public one is available exactly when it is same-institution and the user is signed in. |
| Access.DocumentDownloadable | app/helpers/geoblacklight_helper.rb:8-10 | Downloadable implies available; downloadable exactly when the downloadable flag is set and the document is public or same-institution with a signed-in user. |
| Access.ShowAttributeTable | app/helpers/geoblacklight_helper.rb:153-155 | The attribute table is shown only for an available document, and exactly when it is inspectable and available. |
| Access.SigningInOnlyAdds | app/helpers/geoblacklight_helper.rb:4-10 | Signing in never removes availability, downloadability or the attribute table; whatever signing in adds belongs to a non-public same-institution document. |
| Viewer.OpenlayersContainer | app/helpers/geoblacklight_helper.rb:257-260 | False when there is no document; otherwise true (the source's value is truthy) exactly when the item viewer declares PMTiles or COG. |
| Viewer.ViewerContainer | app/helpers/geoblacklight_helper.rb:249-255 | Without a document the result is the nil-document error; with one it is exactly the OpenLayers template's div when the viewer declares PMTiles or COG and the Leaflet template's div otherwise, so its id is "ol-map" or "map" accordingly and it carries the document's availability and the basemap. |
| Viewer.ViewerDiv | app/helpers/geoblacklight_helper.rb:262-290 | The OpenLayers template's div has id "ol-map" and the Leaflet template's "map"; both carry data-map "item", the document's viewer protocol, endpoint, layer id and GeoJSON geometry, the catalog path, its availability for this user, the selected basemap and the Leaflet options. |
| Viewer.TemplatesDifferOnlyInId | app/helpers/geoblacklight_helper.rb:262-290 | The two viewer templates carry identical data attributes and differ only in their id. |
| Viewer.ResultsJsMapSelector | app/helpers/geoblacklight_helper.rb:240-247 | The selector is "bookmarks" exactly for the controller name "bookmarks" and "index" for every other name. |
| Viewer.GeoblacklightBasemap | app/helpers/geoblacklight_helper.rb:171-173 | A configured provider is used as is (even an empty name); the result is "positron" exactly when none is configured or "positron" is. |
| Icons.GeoblacklightIconName | app/helpers/geoblacklight_helper.rb:81-82 | A nil or false name becomes "none"; any other name is slugged. |
| Icons.RelationsIcon | app/helpers/geoblacklight_helper.rb:231-237 | The geometry-type field names the icon exactly when the setting is on and the field is not blank, otherwise the given icon does (nil giving "none"); the "svg_tooltip" class is passed exactly when the setting is on. |
| RubyValues.Flatten | app/helpers/geoblacklight_helper.rb:73 | The flattened values contain no arrays, and a list without arrays is left unchanged. |
| RubyValues.FlattenAppend | app/helpers/geoblacklight_helper.rb:73 | Flattening a concatenation is the concatenation of the flattened parts. |
| RubyValues.FlattenNested | app/helpers/geoblacklight_helper.rb:73 | A nested array is replaced by its own flattened elements, so nested values are kept; with the two rows above this fixes flatten completely. |
| RubyStrings.Join | app/helpers/geoblacklight_helper.rb:164 | Joining no parts gives the empty text and joining one part gives that part. |
| RubyStrings.JoinLayout | app/helpers/geoblacklight_helper.rb:164 | For any parts, whatever they contain, each part sits whole at its offset (the parts before it plus one separator each), one separator follows every part but the last, and nothing follows the last. |
| RubyStrings.SplitJoin | app/helpers/geoblacklight_helper.rb:164 | Joining with a single separator loses nothing: splitting the join gives back every part, in order, when no part contains the separator. |
| RubyStrings.JoinLength | app/helpers/geoblacklight_helper.rb:164 | A join is as long as its parts together plus one separator between each two neighbours. |
| RubyStrings.Truncate | app/helpers/geoblacklight_helper.rb:73 | For a length of at least 3 (the helper passes 150): the result never exceeds the length; a text that fits is kept whole; a longer one keeps its first length-3 characters followed by "...". |
| FieldText.RenderValueAsTruncateAbstract | app/helpers/geoblacklight_helper.rb:162-166 | The "truncate-abstract" div holds every flattened value, whole and in order, with exactly one space between neighbours and nothing else, whatever the values contain; its length is their total plus the spaces; nil gives "", a single string is kept as is, and when no value contains a space splitting on spaces recovers the values. |
| FieldText.Snippit | app/helpers/geoblacklight_helper.rb:68-74 | The snippet is at most 150 characters; it equals the uncapped abstract text when that fits and otherwise keeps its first 147 characters followed by "...". |
| FieldText.JoinedValueConcat | app/helpers/geoblacklight_helper.rb:162-166 | When each list flattens to at least one value, the joined text of the two lists put together is the two joined texts with one space between them (an empty list adds no space). |
| RubyStrings.SubBang | app/helpers/geoblacklight_helper.rb:13 | sub! returns nil and leaves the string alone exactly when the pattern does not occur; otherwise it replaces the leftmost occurrence and returns the edited string. |
| RubyStrings.FindFrom | app/helpers/geoblacklight_helper.rb:13 | The search finds an occurrence at or after the start with none before it, or reports that no occurrence exists from the start on. |
| FieldText.IiifJpgUrl | app/helpers/geoblacklight_helper.rb:12-14 | Nil exactly when the endpoint has no "info.json"; otherwise the endpoint with its leftmost "info.json" replaced by "full/full/0/default.jpg", which is also what the endpoint now holds. |
| FieldText.IiifCanonicalEndpoint | app/helpers/geoblacklight_helper.rb:12-14 | An endpoint ending in its only "info.json" gives its base followed by "full/full/0/default.jpg". |
| FieldText.IiifSecondCallNil | app/helpers/geoblacklight_helper.rb:44-53 | For an endpoint with a single "info.json", the first call gives the URL and a second call on the edited endpoint gives nil, as in the two calls of the JPEG download link. |

## Left out

- Markup building with `link_to`, `tag.div`, `tag.span` and `tag.a`, including the download-link helpers (lines 16-66): they are Rails view helpers. Only the data each viewer div carries is modelled.
- Localisation lookups (`proper_case_format`, `export_format_label`, `formatted_name_reference`, `download_text`, and the translation-existence branch of `render_help_text_entry`): they read external translation catalogues.
- `show_help_text?`, `render_sidebar_map?` and `leaflet_options`: they test or return global Settings values. `show_help_text?` asks whether the Settings help-text list for a feature includes a key, `render_sidebar_map?` compares the document's viewer protocol against the `Settings.SIDEBAR_STATIC_MAP` list, and `leaflet_options` returns `Settings.LEAFLET`. The Settings values the modelled helpers need are fields of `Context`, and `Settings.LEAFLET` is carried as opaque text.
- `render_web_services` and `render_transformed_metadata`: partial rendering, template resolution and the metadata transformer's exceptions belong to the framework; logging is output.
- `first_metadata?` and `render_references_url`: thin accessors over the document's references object, which is not part of this model. For the same reason `FieldText.IiifJpgUrl` takes the IIIF endpoint string directly rather than looking up the document's IIIF reference.
- The `blacklight_icon` lookup and its fallback to an empty "icon-missing" span when the icon is not found: a foreign library. The model stops at the name and options handed to it.
- Icons.GeoblacklightIconName: Rails' `to_s.parameterize` is a parameter `slug`, not modelled; the contract says which value is slugged, not what the slug looks like.
- Viewer.ViewerDiv: the protocol attribute holds the viewer protocol before Rails' `camelize`, and `search_catalog_path` is an opaque route string.
- FieldText.RenderValueAsTruncateAbstract: the content is the text before `tag.div` HTML-escapes it; escaping is markup and is not modelled.
- Viewer.OpenlayersContainer: returns a boolean. In Ruby, `pmtiles || cog` yields the PMTiles or COG reference itself, or nil; only its truthiness, which is all `viewer_container` uses, is modelled. The item viewer's `pmtiles` and `cog` fields record whether each reference is present.
- FieldText.Snippit: the 150-character bound is on the text before ActionView HTML-escapes it, and the `separator` option of `truncate` is not modelled, because the helper does not pass one.
- RubyStrings.Truncate: requires a length of at least 3; ActiveSupport also accepts shorter lengths and then returns "...", longer than the limit, but the helper always passes 150.
- Access.DocumentAvailable: takes a document, so the NoMethodError Ruby raises when `@document` is nil is not modelled (only `openlayers_container?` guards against a nil document).
- Field values other than nil, booleans, strings and arrays (numbers, symbols) are represented by the string their `to_s` gives; hashes are not modelled.
