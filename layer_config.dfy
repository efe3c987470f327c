/**
 * The data a layer's table dependencies are computed from: its kind, its
 * options blob, its map, the analysis nodes it may point at, and the
 * collaborators (database helper, table lookup, analysis graph) the
 * computation consults.
 */
module LayerConfig {
  import opened Wrappers

  /**
   * The options hash of a layer, with the entries the dependency logic reads.
   * A missing key and a key holding nil are both None. `otherEntries` counts
   * every entry of the hash that no field above carries: the other keys
   * (legend, labels, styles, ...) and the keys above when they hold nil.
   * They matter only for whether the hash is empty.
   */
  datatype Options = Options(
    query: Option<string>,
    tableName: Option<string>,
    userName: Option<string>,
    source: Option<string>,
    queryWrapper: Option<string>,
    otherEntries: nat)

  /** Hash#empty? of the options. */
  predicate IsEmpty(o: Options)
    ensures IsEmpty(o) <==> o == Options(None, None, None, None, None, 0)
  {
    o.query.None? && o.tableName.None? && o.userName.None? && o.source.None?
    && o.queryWrapper.None? && o.otherEntries == 0
  }

  /** The map a layer belongs to (the first of its maps), with its visualization's id. */
  datatype MapRef = MapRef(visualizationId: string)

  /** The persistent attributes of a layer that the dependency logic reads. */
  datatype LayerData = LayerData(kind: string, options: Options, owningMap: Option<MapRef>)

  /** An analysis node: its id, `params[:query]` and `options[:table_name]`. */
  datatype AnalysisNode = AnalysisNode(naturalId: string, query: Option<string>, tableName: Option<string>)

  /** A database-level failure raised by a collaborator. */
  datatype DbError = DbError(message: string)

  /**
   * The collaborators, each bound to the layer's owning user where the source
   * passes that user:
   *  - findNode: AnalysisNode.find_by_natural_id(visualization id, node id);
   *  - sourceDescendants: the node's source_descendants;
   *  - queryTables: the text CDB_QueryTables returns for a SQL string, or the database error;
   *  - tablesByNames: Table.get_all_user_tables_by_names for a list of names.
   */
  datatype Collaborators<T> = Collaborators(
    findNode: (string, string) -> Option<AnalysisNode>,
    sourceDescendants: AnalysisNode -> seq<AnalysisNode>,
    queryTables: string -> Result<string, DbError>,
    tablesByNames: seq<string> -> Result<seq<Option<T>>, DbError>)
}
