/**
 * A stored layer and the one piece of its state the dependency logic writes:
 * the tracked `user_tables` association, replaced by
 * `register_table_dependencies`.
 */
module LayerRecord {
  import opened Wrappers
  import opened RubyArrays
  import opened LayerKinds
  import opened LayerConfig
  import opened TableDependencies

  class Layer<T(==,!new)> {
    /** Kind, options and map of the layer. */
    const data: LayerData
    /** The tables recorded as this layer's dependencies. */
    var userTables: seq<T>

    constructor (data: LayerData, userTables: seq<T>)
      ensures this.data == data && this.userTables == userTables
    {
      this.data := data;
      this.userTables := userTables;
    }

    /**
     * register_table_dependencies: a data layer records its affected tables;
     * any other layer keeps what it had. When computing the affected tables
     * raises, the error is returned and nothing is recorded.
     */
    method RegisterTableDependencies(env: Collaborators<T>) returns (failure: Option<DbError>)
      modifies this`userTables
      ensures !IsDataLayer(data.kind) ==> failure == None && userTables == old(userTables)
      ensures IsDataLayer(data.kind) && AffectedTables(env, data).Ok? ==>
        failure == None && userTables == AffectedTables(env, data).value
      ensures IsDataLayer(data.kind) && AffectedTables(env, data).Err? ==>
        failure == Some(AffectedTables(env, data).error) && userTables == old(userTables)
      ensures IsDataLayer(data.kind) && failure == None ==> NoDuplicates(userTables)
    {
      failure := None;
      if IsDataLayer(data.kind) {
        var affected := AffectedTables(env, data);
        match affected {
          case Ok(tables) => userTables := tables;
          case Err(e) => failure := Some(e);
        }
      }
    }
  }
}
