/**
 * The persisted description of one datasource: a mutable bean whose
 * `lastUpdateDate` is never observably null. Reading it unset yields the
 * clock's current time; writing null stores the current time. `now` is the
 * clock reading, passed in explicitly.
 */
module Entity {
  import opened JavaLang

  class PluginDatasource {
    var datasourceCode: Option<string>
    var datasourceDescription: Option<string>
    var datasourceType: Option<string>
    var datasourceClass: Option<string>
    var datasourcePluginId: Option<string>
    var sessionPluginId: Option<string>
    var settingsInfo: Option<string>
    var enabledFlag: Option<Integer>
    var tenantId: Option<Long>
    var lastUpdateDate: Option<LocalDateTime>

    /** The all-arguments constructor: stores every field as given, `lastUpdateDate` included. */
    constructor (datasourceCode: Option<string>, datasourceDescription: Option<string>,
                 datasourceType: Option<string>, datasourceClass: Option<string>,
                 datasourcePluginId: Option<string>, sessionPluginId: Option<string>,
                 settingsInfo: Option<string>, enabledFlag: Option<Integer>,
                 tenantId: Option<Long>, lastUpdateDate: Option<LocalDateTime>)
      ensures this.datasourceCode == datasourceCode
      ensures this.datasourceDescription == datasourceDescription
      ensures this.datasourceType == datasourceType
      ensures this.datasourceClass == datasourceClass
      ensures this.datasourcePluginId == datasourcePluginId
      ensures this.sessionPluginId == sessionPluginId
      ensures this.settingsInfo == settingsInfo
      ensures this.enabledFlag == enabledFlag
      ensures this.tenantId == tenantId
      ensures this.lastUpdateDate == lastUpdateDate
    {
      this.datasourceCode := datasourceCode;
      this.datasourceDescription := datasourceDescription;
      this.datasourceType := datasourceType;
      this.datasourceClass := datasourceClass;
      this.datasourcePluginId := datasourcePluginId;
      this.sessionPluginId := sessionPluginId;
      this.settingsInfo := settingsInfo;
      this.enabledFlag := enabledFlag;
      this.tenantId := tenantId;
      this.lastUpdateDate := lastUpdateDate;
    }

    /** The stored time when there is one, otherwise `now`; nothing is stored. */
    function GetLastUpdateDate(now: LocalDateTime): (r: LocalDateTime)
      reads this
      ensures lastUpdateDate != None ==> r == lastUpdateDate.value
      ensures lastUpdateDate == None ==> r == now
    {
      if lastUpdateDate == None then now else lastUpdateDate.value
    }

    /**
     * Stores `date`, or `now` when `date` is null. Only `lastUpdateDate`
     * changes, and from then on the getter returns the stored time whatever
     * the clock says.
     */
    method SetLastUpdateDate(date: Option<LocalDateTime>, now: LocalDateTime)
      modifies this`lastUpdateDate
      ensures date != None ==> lastUpdateDate == date
      ensures date == None ==> lastUpdateDate == Some(now)
      ensures forall later :: GetLastUpdateDate(later) == lastUpdateDate.value
    {
      lastUpdateDate := if date == None then Some(now) else date;
    }
  }

  /** Once a time is stored, the getter no longer depends on the clock. */
  lemma GetterIgnoresClockWhenSet(e: PluginDatasource, now1: LocalDateTime, now2: LocalDateTime)
    requires e.lastUpdateDate != None
    ensures e.GetLastUpdateDate(now1) == e.GetLastUpdateDate(now2) == e.lastUpdateDate.value
  {
  }

  /** While unset, two reads at different times give different answers: nothing is cached. */
  lemma GetterFollowsClockWhenUnset(e: PluginDatasource, now1: LocalDateTime, now2: LocalDateTime)
    requires e.lastUpdateDate == None && now1 != now2
    ensures e.GetLastUpdateDate(now1) != e.GetLastUpdateDate(now2)
  {
  }
}
