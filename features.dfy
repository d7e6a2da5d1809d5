/** The basin features of a GeoJSON FeatureCollection, as both the pipeline and the
    query layer read and update them. */
module Features {
  import opened Wrappers

  /** A feature's `properties`. A key that is absent and a key holding JSON null
      both read as None; `other` holds every property this model does not touch. */
  datatype Props = Props(
    basinId: Option<string>,
    name: Option<string>,
    date: Option<string>,
    twsaZ: Option<real>,
    smZ: Option<real>,
    rainZ: Option<real>,
    rainDefZ: Option<real>,
    asi: Option<real>,
    cls: Option<string>,
    other: map<string, string>)

  /** A feature: its optional top-level `id`, its geometry (kept as text) and
      its properties. */
  datatype Feature = Feature(id: Option<string>, geometry: string, props: Props)

  /** `str(p.get("basin_id"))`: a missing id is the string "None". */
  function BasinKey(p: Props): (bid: string)
    ensures p.basinId.Some? ==> bid == p.basinId.value
    ensures p.basinId.None? ==> bid == "None"
  {
    match p.basinId
    case Some(b) => b
    case None => "None"
  }

  /** `p.get("name") or bid`: a missing or empty name falls back to the id. */
  function NameOr(p: Props, bid: string): (name: string)
    ensures p.name.Some? && p.name.value != "" ==> name == p.name.value
    ensures p.name.None? || p.name.value == "" ==> name == bid
  {
    if p.name.Some? && p.name.value != "" then p.name.value else bid
  }

  /** The placeholder a feature without a table row receives: the given date, no
      scores, no ASI and the class "no-data"; every other property is kept. */
  function NoDataProps(p: Props, date: Option<string>): (q: Props)
    ensures q.date == date && q.cls == Some("no-data")
    ensures q.twsaZ.None? && q.smZ.None? && q.rainZ.None? && q.rainDefZ.None? && q.asi.None?
    ensures q.basinId == p.basinId && q.name == p.name && q.other == p.other
  {
    p.(date := date, twsaZ := None, smZ := None, rainZ := None, rainDefZ := None,
       asi := None, cls := Some("no-data"))
  }

  /** A feature whose properties were replaced keeps its id and its geometry. */
  predicate SameShape(f: Feature, g: Feature) {
    f.id == g.id && f.geometry == g.geometry && f.props.basinId == g.props.basinId
    && f.props.other == g.props.other
  }
}
