/**
 * The SQL-like partial-equality filter over plugin datasources: a candidate
 * passes when it agrees with the filter on every filter attribute that is set.
 * The filter's plugin id is the entity's `datasourcePluginId`.
 */
module Preconditions {
  import opened JavaLang
  import opened Entity

  /** A string attribute of the filter either is empty or equals the candidate's. */
  predicate Agrees(filter: Option<string>, candidate: Option<string>) {
    IsEmpty(filter) || filter == candidate
  }

  /** `pluginDatasourceFilter(left, right)`: does `left` pass the filter `right`? */
  function PluginDatasourceFilter(left: PluginDatasource, right: PluginDatasource?): (r: bool)
    reads left, right
    ensures right == null ==> r
    ensures right != null ==>
      (r <==> (&& Agrees(right.datasourcePluginId, left.datasourcePluginId)
               && Agrees(right.datasourceClass, left.datasourceClass)
               && Agrees(right.datasourceType, left.datasourceType)
               && (right.enabledFlag == None || right.enabledFlag == left.enabledFlag)))
  {
    if right == null then true
    else if !IsEmpty(right.datasourcePluginId) && right.datasourcePluginId != left.datasourcePluginId then false
    else if !IsEmpty(right.datasourceClass) && right.datasourceClass != left.datasourceClass then false
    else if !IsEmpty(right.datasourceType) && right.datasourceType != left.datasourceType then false
    else right.enabledFlag == None || right.enabledFlag == left.enabledFlag
  }

  /** A filter that sets none of the four attributes lets every candidate through. */
  lemma EmptyFilterMatchesAll(left: PluginDatasource, right: PluginDatasource)
    requires IsEmpty(right.datasourcePluginId) && IsEmpty(right.datasourceClass)
    requires IsEmpty(right.datasourceType) && right.enabledFlag == None
    ensures PluginDatasourceFilter(left, right)
  {
  }

  /** Every datasource passes itself used as a filter. */
  lemma FilterReflexive(e: PluginDatasource)
    ensures PluginDatasourceFilter(e, e)
  {
  }

  /**
   * A filter that sets only `datasourceType` passes exactly the candidates of
   * that type, whatever their other attributes.
   */
  lemma TypeOnlyFilter(left: PluginDatasource, right: PluginDatasource, datasourceType: string)
    requires datasourceType != ""
    requires IsEmpty(right.datasourcePluginId) && IsEmpty(right.datasourceClass)
    requires right.datasourceType == Some(datasourceType) && right.enabledFlag == None
    ensures PluginDatasourceFilter(left, right) <==> left.datasourceType == Some(datasourceType)
  {
  }

  /** Each attribute the filter sets can reject a candidate on its own. */
  lemma MismatchRejects(left: PluginDatasource, right: PluginDatasource)
    ensures (!IsEmpty(right.datasourcePluginId) && right.datasourcePluginId != left.datasourcePluginId)
      ==> !PluginDatasourceFilter(left, right)
    ensures (!IsEmpty(right.datasourceClass) && right.datasourceClass != left.datasourceClass)
      ==> !PluginDatasourceFilter(left, right)
    ensures (!IsEmpty(right.datasourceType) && right.datasourceType != left.datasourceType)
      ==> !PluginDatasourceFilter(left, right)
    ensures (right.enabledFlag != None && right.enabledFlag != left.enabledFlag)
      ==> !PluginDatasourceFilter(left, right)
  {
  }
}
