/**
 * The classification of a layer by its `kind` string. Each predicate is a
 * total function of the kind; `IsDataLayer` decides whether table
 * dependencies are tracked for the layer at all.
 */
module LayerKinds {

  /** The kinds that draw no user data: tiles, a background colour, Google Maps, WMS. */
  const BaseKinds: set<string> := {"tiled", "background", "gmapsbase", "wms"}

  /** carto?: the one kind drawn from the user's data without torque; not a base kind. */
  predicate IsCarto(kind: string)
    ensures IsCarto(kind) ==> kind !in BaseKinds
  {
    kind == "carto"
  }

  /** tiled?, background?, gmapsbase?, wms?: one named kind each, all of them base kinds. */
  predicate IsTiled(kind: string)
    ensures IsTiled(kind) ==> kind in BaseKinds
  {
    kind == "tiled"
  }

  predicate IsBackground(kind: string)
    ensures IsBackground(kind) ==> kind in BaseKinds
  {
    kind == "background"
  }

  predicate IsGmapsbase(kind: string)
    ensures IsGmapsbase(kind) ==> kind in BaseKinds
  {
    kind == "gmapsbase"
  }

  predicate IsWms(kind: string)
    ensures IsWms(kind) ==> kind in BaseKinds
  {
    kind == "wms"
  }

  function IsTorque(kind: string): (b: bool)
    ensures b <==> kind == "torque"
    ensures b ==> !IsBase(kind)
  {
    kind == "torque"
  }

  /** basemap?: a Google Maps base or a tiled layer. */
  function IsBasemap(kind: string): (b: bool)
    ensures b <==> kind in {"gmapsbase", "tiled"}
    ensures b ==> IsBase(kind)
  {
    IsGmapsbase(kind) || IsTiled(kind)
  }

  /** base?: one of the four base kinds. */
  function IsBase(kind: string): (b: bool)
    ensures b <==> kind in BaseKinds
  {
    IsTiled(kind) || IsBackground(kind) || IsGmapsbase(kind) || IsWms(kind)
  }

  /** data_layer?: every kind that is not a base kind, unknown kinds included. */
  function IsDataLayer(kind: string): (b: bool)
    ensures b <==> kind !in BaseKinds
    ensures IsCarto(kind) || IsTorque(kind) ==> b
  {
    !IsBase(kind)
  }

  /** user_layer?: written out separately in the source, but the same four kinds as base?. */
  function IsUserLayer(kind: string): (b: bool)
    ensures b == IsBase(kind)
    ensures b <==> !IsDataLayer(kind)
  {
    IsTiled(kind) || IsBackground(kind) || IsGmapsbase(kind) || IsWms(kind)
  }

  /** named_map_layer?: the base kinds and carto. */
  function IsNamedMapLayer(kind: string): (b: bool)
    ensures b == (IsBase(kind) || IsCarto(kind))
    ensures b <==> kind in BaseKinds + {"carto"}
    ensures b && IsDataLayer(kind) <==> IsCarto(kind)
  {
    IsTiled(kind) || IsBackground(kind) || IsGmapsbase(kind) || IsWms(kind) || IsCarto(kind)
  }
}
