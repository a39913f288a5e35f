/**
 Which icon name the helpers ask the icon library for. The library lookup
 itself, and its fallback when an icon is missing, are not part of this
 model.
 */
module Icons {
  import opened Options
  import opened RubyValues
  import opened Documents

  /** The arguments handed to `blacklight_icon`: the icon name and the
      `classes` option, if any. */
  datatype IconRequest = IconRequest(name: string, classes: Option<string>)

  /** The name `geoblacklight_icon` looks up: a falsy name (nil or false)
      becomes "none"; any other name is slugged. `slug` stands for Rails'
      `to_s.parameterize`. */
  function GeoblacklightIconName(name: Value, slug: Value -> string): (r: string)
    ensures !Truthy(name) ==> r == "none"
    ensures Truthy(name) ==> r == slug(name)
  {
    if Truthy(name) then slug(name) else "none"
  }

  /** `relations_icon`: when the Settings ask for it and the document's
      geometry-type field is not blank, the icon follows the geometry type
      and carries the "svg_tooltip" class; otherwise the given icon is
      used. The class is added exactly when the setting is on, whichever
      name wins. */
  function RelationsIcon(doc: Document, icon: Value, ctx: Context, slug: Value -> string): (r: IconRequest)
    ensures ctx.useGeomForRelationsIcon && !Blank(Field(doc, ctx.geomTypeField)) ==>
      r.name == slug(Field(doc, ctx.geomTypeField))
    ensures !(ctx.useGeomForRelationsIcon && !Blank(Field(doc, ctx.geomTypeField))) ==>
      r.name == GeoblacklightIconName(icon, slug)
    ensures r.classes.Some? <==> ctx.useGeomForRelationsIcon
    ensures r.classes.Some? ==> r.classes.value == "svg_tooltip"
  {
    var fromGeometry := if ctx.useGeomForRelationsIcon then Field(doc, ctx.geomTypeField) else Nil;
    var iconName := if Blank(fromGeometry) then icon else fromGeometry;
    var options := if ctx.useGeomForRelationsIcon then Some("svg_tooltip") else None;
    NotBlankIsTruthy(fromGeometry);
    IconRequest(GeoblacklightIconName(iconName, slug), options)
  }
}
