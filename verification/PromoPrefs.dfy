/** chrome/browser/notification_promo.cc: the layouts of the promo preference and the way between them. */
module PromoPrefs {
  import opened Options
  import opened Decimals

  // ---------- base::Value ----------

  datatype Value =
    | Integer(i: int)
    | Double(d: real)
    | Boolean(b: bool)
    | String(s: string)
    | Dictionary(entries: map<string, Value>)
    | List(items: seq<Value>)

  type Dict = map<string, Value>

  function GetInteger(d: Dict, key: string, default: int): int {
    if key in d && d[key].Integer? then d[key].i else default
  }

  /** Reads integers as doubles, too. */
  function GetDouble(d: Dict, key: string, default: real): real {
    if key !in d then default
    else if d[key].Double? then d[key].d
    else if d[key].Integer? then d[key].i as real
    else default
  }

  function GetBoolean(d: Dict, key: string, default: bool): bool {
    if key in d && d[key].Boolean? then d[key].b else default
  }

  function GetDictionary(d: Dict, key: string): Option<Dict> {
    if key in d && d[key].Dictionary? then Some(d[key].entries) else None
  }

  function GetList(d: Dict, key: string): Option<seq<Value>> {
    if key in d && d[key].List? then Some(d[key].items) else None
  }

  // ---------- base::IntToString ----------

  function IntToString(n: int): (s: string)
    ensures s != [] && (s[0] == '-' || '0' <= s[0] <= '9')
  {
    if n < 0 then "-" + Digits(-n) else Digits(n)
  }

  /** The decimal numeral, with a sign if the number is negative. */
  lemma IntToStringIsDecimal(n: int)
    ensures var s := IntToString(n);
      if n >= 0 then AllDigits(s) && ValueOf(s) == n
      else s[0] == '-' && AllDigits(s[1..]) && ValueOf(s[1..]) == -n
  {
    if n >= 0 {
      DigitsStandForNumber(n);
    } else {
      DigitsStandForNumber(-n);
      assert IntToString(n)[1..] == Digits(-n);
    }
  }

  /** No two promo ids share a preference key. */
  lemma IntToStringInjective(m: int, n: int)
    requires IntToString(m) == IntToString(n)
    ensures m == n
  {
    var s := IntToString(m);
    if m < 0 {
      assert s[1..] == Digits(-m) && n < 0;
      DigitsInjective(-m, -n);
    } else {
      assert n >= 0;
      DigitsInjective(m, n);
    }
  }

  // ---------- The stored promo ----------

  const OLD_LIST := "mobile_ntp_whats_new_promo"
  const ID := "id"
  const FIRST_VIEW_TIME := "first_view_time"
  const VIEWS := "views"
  const CLOSED := "closed"

  /** What is kept about a promo between sessions. */
  datatype Record = Record(firstViewTime: real, views: int, closed: bool)

  const NEW_RECORD := Record(0.0, 0, false)

  function ToDict(r: Record): Dict {
    map[FIRST_VIEW_TIME := Double(r.firstViewTime), VIEWS := Integer(r.views), CLOSED := Boolean(r.closed)]
  }

  /** Reads what is there and has the right type; the rest keeps its default. */
  function FromDict(d: Dict, default: Record): Record {
    Record(GetDouble(d, FIRST_VIEW_TIME, default.firstViewTime),
           GetInteger(d, VIEWS, default.views),
           GetBoolean(d, CLOSED, default.closed))
  }

  /** WritePrefs. */
  function Written(prefs: Dict, id: int, r: Record): Dict {
    prefs[IntToString(id) := Dictionary(ToDict(r))]
  }

  /** The part of InitFromPrefs that follows the migration. */
  function Loaded(prefs: Dict, id: int, fields: Record): Record {
    var entry := GetDictionary(prefs, IntToString(id));
    if id == -1 || entry.None? then fields else FromDict(entry.value, fields)
  }

  /** MigrateOldPrefs. */
  function Migrated(prefs: Dict): Dict {
    var promos := GetList(prefs, OLD_LIST);
    if promos.None? then prefs
    else if promos.value == [] || !promos.value[0].Dictionary? then map[]
    else
      var record := promos.value[0].entries;
      var id := GetInteger(record, ID, -1);
      if id == -1 then map[]
      else Written(map[], id, FromDict(record, NEW_RECORD))
  }

  /** The record a new session of the promo starts with. */
  function Entry(prefs: Dict, id: int): Record {
    Loaded(Migrated(prefs), id, NEW_RECORD)
  }

  lemma OldListIsNoId(id: int)
    ensures IntToString(id) != OLD_LIST
  {
    assert OLD_LIST[0] == 'm';
  }

  /** The old list never survives a migration, so a second one changes nothing. */
  lemma MigrationIsIdempotent(prefs: Dict)
    ensures GetList(Migrated(prefs), OLD_LIST) == None
    ensures Migrated(Migrated(prefs)) == Migrated(prefs)
  {
    var promos := GetList(prefs, OLD_LIST);
    if promos.Some? && promos.value != [] && promos.value[0].Dictionary? {
      OldListIsNoId(GetInteger(promos.value[0].entries, ID, -1));
    }
  }

  /** The old list starts with a record that has an id. */
  predicate WellFormedOld(prefs: Dict) {
    var promos := GetList(prefs, OLD_LIST);
    && promos.Some? && promos.value != [] && promos.value[0].Dictionary?
    && GetInteger(promos.value[0].entries, ID, -1) != -1
  }

  /**
   A well-formed old record becomes the only entry, with its values under its id; any other
   old list leaves nothing behind.
   */
  lemma MigrationKeepsTheRecord(prefs: Dict)
    requires GetList(prefs, OLD_LIST).Some?
    ensures Migrated(prefs) != map[] <==> WellFormedOld(prefs)
    ensures WellFormedOld(prefs) ==>
      var record := GetList(prefs, OLD_LIST).value[0].entries; var id := GetInteger(record, ID, -1);
      && Migrated(prefs).Keys == {IntToString(id)}
      && Entry(prefs, id) == FromDict(record, NEW_RECORD)
  {
    if WellFormedOld(prefs) {
      var record := GetList(prefs, OLD_LIST).value[0].entries;
      var id := GetInteger(record, ID, -1);
      ReadsBack(map[], id, FromDict(record, NEW_RECORD), NEW_RECORD);
      assert IntToString(id) in Migrated(prefs);
    }
  }

  /** The layout of what is written. */
  lemma WrittenLayout(prefs: Dict, id: int, r: Record)
    ensures Written(prefs, id, r) == prefs[IntToString(id) := Dictionary(map[
      "first_view_time" := Double(r.firstViewTime), "views" := Integer(r.views), "closed" := Boolean(r.closed)])]
  {
  }

  /** What is read of an entry: the three values, each if it is there and of the right type. */
  lemma LoadedLayout(prefs: Dict, id: int, fields: Record, d: Dict)
    requires id != -1 && IntToString(id) in prefs && prefs[IntToString(id)] == Dictionary(d)
    ensures var r := Loaded(prefs, id, fields);
      && r.firstViewTime == (if "first_view_time" !in d then fields.firstViewTime
                             else match d["first_view_time"]
                               case Double(t) => t
                               case Integer(t) => t as real
                               case _ => fields.firstViewTime)
      && r.views == (if "views" in d && d["views"].Integer? then d["views"].i else fields.views)
      && r.closed == (if "closed" in d && d["closed"].Boolean? then d["closed"].b else fields.closed)
  {
  }

  /** An old list that starts with a record that has an id, spelled out. */
  ghost predicate IsOldRecord(prefs: Dict, id: int, d: Dict) {
    && id != -1 && "id" in d && d["id"] == Integer(id)
    && "mobile_ntp_whats_new_promo" in prefs && prefs["mobile_ntp_whats_new_promo"].List?
    && prefs["mobile_ntp_whats_new_promo"].items != []
    && prefs["mobile_ntp_whats_new_promo"].items[0] == Dictionary(d)
  }

  /** Migration takes over the three values of an old record, or their defaults, and nothing else. */
  lemma MigrationKeepsTheValues(prefs: Dict, id: int, d: Dict)
    requires IsOldRecord(prefs, id, d)
    ensures Migrated(prefs) == map[IntToString(id) := Dictionary(map[
      "first_view_time" := Double(if "first_view_time" !in d then 0.0
                                  else match d["first_view_time"]
                                    case Double(t) => t
                                    case Integer(t) => t as real
                                    case _ => 0.0),
      "views" := Integer(if "views" in d && d["views"].Integer? then d["views"].i else 0),
      "closed" := Boolean("closed" in d && d["closed"] == Boolean(true))])]
  {
  }

  /** What WritePrefs has written is what a new object loads, except for the id -1. */
  lemma ReadsBack(prefs: Dict, id: int, r: Record, fields: Record)
    ensures Loaded(Written(prefs, id, r), id, fields) == if id == -1 then fields else r
  {
  }

  /**
   Writing one promo's entry touches neither another promo's entry nor the old list. While
   there is an old list, what is written is lost at the next migration.
   */
  lemma WriteIsLocal(prefs: Dict, id: int, r: Record, other: int, fields: Record)
    ensures other != id ==> Loaded(Written(prefs, id, r), other, fields) == Loaded(prefs, other, fields)
    ensures GetList(Written(prefs, id, r), OLD_LIST) == GetList(prefs, OLD_LIST)
    ensures Migrated(Written(prefs, id, r)) ==
      if GetList(prefs, OLD_LIST).None? then Written(prefs, id, r) else Migrated(prefs)
  {
    OldListIsNoId(id);
    if IntToString(other) == IntToString(id) {
      IntToStringInjective(other, id);
    }
  }
}
