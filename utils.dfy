/**
 * The timetable flattener of the ingestion package. It turns a Deutsche Bahn
 * timetable document (stops `s`, each with an optional trip label `tl` and
 * any number of arrival `ar` and departure `dp` children) into a flat list of
 * event records. In planned mode each record carries a `scheduled_time` key
 * (taken from `pt`). In change mode it carries an `actual_time` key (taken
 * from `ct`) instead.
 */
module Utils {
  import opened Wrappers
  import opened ElementTree

  /** The stations the ingestion jobs iterate over (data only). */
  const StationNames: seq<string> :=
    ["Hamburg Hbf", "München Hbf", "Köln Hbf", "Berlin Hauptbahnhof", "Braunschweig Hbf"]

  /** Whether a record comes from an `ar` or a `dp` child. */
  datatype EventType = Arrival | Departure
  {
    /** The value stored under the record's "type" key. */
    function Label(): string
    {
      match this
      case Arrival => "arrival"
      case Departure => "departure"
    }
  }

  /**
   * The one time key a record has: `scheduled_time` in planned mode,
   * `actual_time` in change mode. Either may hold None when the attribute
   * was missing; that is different from the key being absent.
   */
  datatype TimeField = Scheduled(scheduledTime: Option<string>) | Actual(actualTime: Option<string>)

  /** One record dict as `parse_xml` appends it to its result. */
  datatype Record = Record(
    sId: Option<string>,
    trainId: Option<string>,
    plannedPath: Option<string>,
    eventType: EventType,
    time: TimeField)
  {
    /** The key set of the Python dict: four fixed keys and exactly one time key. */
    function Keys(): (ks: set<string>)
      ensures {"s_id", "train_id", "planned_path", "type"} <= ks
      ensures "scheduled_time" in ks <==> time.Scheduled?
      ensures "actual_time" in ks <==> time.Actual?
      ensures |ks| == 5
    {
      {"s_id", "train_id", "planned_path", "type",
       if time.Scheduled? then "scheduled_time" else "actual_time"}
    }
  }

  /** The time key of an event element in the given mode. */
  function TimeOf(ev: Element, recentChanges: bool): (r: TimeField)
    ensures r.Scheduled? <==> !recentChanges
    ensures r.Scheduled? ==> r.scheduledTime == Get(ev, "pt")
    ensures r.Actual? ==> r.actualTime == Get(ev, "ct")
  {
    if !recentChanges then Scheduled(Get(ev, "pt")) else Actual(Get(ev, "ct"))
  }

  /** The train number of a stop: `n` of its first `tl` child, or None. */
  function TrainId(stop: Element): (r: Option<string>)
    ensures r == if FindAll(stop.children, "tl") == [] then None
                 else Get(FindAll(stop.children, "tl")[0], "n")
  {
    FindIsFirstOfFindAll(stop.children, "tl");
    match Find(stop.children, "tl")
    case Some(tl) => Get(tl, "n")
    case None => None
  }

  /** The record built for one `ar` or `dp` child of a stop. */
  function EventRecord(sId: Option<string>, trainId: Option<string>, ev: Element,
                       kind: EventType, recentChanges: bool): (r: Record)
    ensures "scheduled_time" in r.Keys() <==> !recentChanges
    ensures "actual_time" in r.Keys() <==> recentChanges
    ensures r.eventType == kind && r.plannedPath == Get(ev, "ppth")
  {
    Record(sId, trainId, Get(ev, "ppth"), kind, TimeOf(ev, recentChanges))
  }

  /** One record per event element, in order. */
  function EventRecords(sId: Option<string>, trainId: Option<string>, evs: seq<Element>,
                        kind: EventType, recentChanges: bool): (r: seq<Record>)
    ensures |r| == |evs|
  {
    if evs == [] then []
    else [EventRecord(sId, trainId, evs[0], kind, recentChanges)]
         + EventRecords(sId, trainId, evs[1..], kind, recentChanges)
  }

  /** The records of one stop: all its arrivals, then all its departures. */
  function StopRecords(stop: Element, recentChanges: bool): (r: seq<Record>)
    ensures |r| == CountTag(stop.children, "ar") + CountTag(stop.children, "dp")
  {
    var sId := Get(stop, "id");
    var trainId := TrainId(stop);
    EventRecords(sId, trainId, FindAll(stop.children, "ar"), Arrival, recentChanges)
    + EventRecords(sId, trainId, FindAll(stop.children, "dp"), Departure, recentChanges)
  }

  /** Total number of `ar` and `dp` children over a sequence of stops. */
  function EventCount(stops: seq<Element>): nat
  {
    if stops == [] then 0
    else CountTag(stops[0].children, "ar") + CountTag(stops[0].children, "dp") + EventCount(stops[1..])
  }

  /** The records of a sequence of stops, stop after stop. */
  function DocRecords(stops: seq<Element>, recentChanges: bool): (r: seq<Record>)
    ensures |r| == EventCount(stops)
  {
    if stops == [] then []
    else StopRecords(stops[0], recentChanges) + DocRecords(stops[1..], recentChanges)
  }

  /** What `parse_xml` returns for a parsed document `root`. */
  function Flatten(root: Element, recentChanges: bool): (r: seq<Record>)
    ensures |r| == EventCount(FindAll(root.children, "s"))
  {
    DocRecords(FindAll(root.children, "s"), recentChanges)
  }

  /**
   * `parse_xml(response, recent_changes)` on the already-parsed document:
   * loop over the `s` children; for each, read its id and train number,
   * then append one record per `ar` child and then one per `dp` child.
   */
  method ParseXml(root: Element, recentChanges: bool := false) returns (records: seq<Record>)
    ensures records == Flatten(root, recentChanges)
  {
    records := [];
    var stops := FindAll(root.children, "s");
    for i := 0 to |stops|
      invariant records == DocRecords(stops[..i], recentChanges)
    {
      var stop := stops[i];
      var sId := Get(stop, "id");
      var tl := Find(stop.children, "tl");
      var trainId := if tl.Some? then Get(tl.value, "n") else None;
      ghost var before := records;
      records := AppendEvents(records, sId, trainId, FindAll(stop.children, "ar"), Arrival, recentChanges);
      ghost var afterArrivals := records;
      records := AppendEvents(records, sId, trainId, FindAll(stop.children, "dp"), Departure, recentChanges);
      StopStep(stop, recentChanges, sId, trainId, before, afterArrivals, records);
      DocRecordsSnoc(stops, i, recentChanges);
    }
    assert stops[..|stops|] == stops;
  }

  /**
   * One of the two inner loops of `parse_xml`: for each event element of
   * kind `kind`, build the record dict, add its one time key, append it.
   */
  method AppendEvents(records: seq<Record>, sId: Option<string>, trainId: Option<string>,
                      evs: seq<Element>, kind: EventType, recentChanges: bool)
    returns (out: seq<Record>)
    ensures out == records + EventRecords(sId, trainId, evs, kind, recentChanges)
  {
    out := records;
    for j := 0 to |evs|
      invariant out == records + EventRecords(sId, trainId, evs[..j], kind, recentChanges)
    {
      var ev := evs[j];
      var plannedPath := Get(ev, "ppth");
      var time: TimeField;
      if !recentChanges {
        time := Scheduled(Get(ev, "pt"));
      } else {
        time := Actual(Get(ev, "ct"));
      }
      out := out + [Record(sId, trainId, plannedPath, kind, time)];
      EventRecordsSnoc(sId, trainId, evs, kind, recentChanges, j);
    }
    assert evs[..|evs|] == evs;
  }

  /** One loop step: the records of the next prefix of events. */
  lemma {:induction false} EventRecordsSnoc(sId: Option<string>, trainId: Option<string>, evs: seq<Element>,
                                            kind: EventType, recentChanges: bool, j: nat)
    requires j < |evs|
    ensures EventRecords(sId, trainId, evs[..j + 1], kind, recentChanges)
         == EventRecords(sId, trainId, evs[..j], kind, recentChanges)
            + [Record(sId, trainId, Get(evs[j], "ppth"), kind, TimeOf(evs[j], recentChanges))]
  {
    if j > 0 {
      assert evs[..j + 1][1..] == evs[1..][..j];
      assert evs[..j][1..] == evs[1..][..j - 1];
      EventRecordsSnoc(sId, trainId, evs[1..], kind, recentChanges, j - 1);
    }
  }

  /** The two inner loops of one stop together append that stop's records. */
  lemma StopStep(stop: Element, recentChanges: bool, sId: Option<string>, trainId: Option<string>,
                 before: seq<Record>, afterArrivals: seq<Record>, after: seq<Record>)
    requires sId == Get(stop, "id")
    requires trainId == match Find(stop.children, "tl") case Some(tl) => Get(tl, "n") case None => None
    requires afterArrivals == before + EventRecords(sId, trainId, FindAll(stop.children, "ar"), Arrival, recentChanges)
    requires after == afterArrivals + EventRecords(sId, trainId, FindAll(stop.children, "dp"), Departure, recentChanges)
    ensures after == before + StopRecords(stop, recentChanges)
  {
  }

  /** One outer loop step: the records of the next prefix of stops. */
  lemma DocRecordsSnoc(stops: seq<Element>, i: nat, recentChanges: bool)
    requires i < |stops|
    ensures DocRecords(stops[..i + 1], recentChanges)
         == DocRecords(stops[..i], recentChanges) + StopRecords(stops[i], recentChanges)
  {
    assert stops[..i + 1] == stops[..i] + [stops[i]];
    DocRecordsAppend(stops[..i], [stops[i]], recentChanges);
  }

  /** The records of concatenated stop sequences are the concatenated records. */
  lemma {:induction false} DocRecordsAppend(a: seq<Element>, b: seq<Element>, recentChanges: bool)
    ensures DocRecords(a + b, recentChanges) == DocRecords(a, recentChanges) + DocRecords(b, recentChanges)
  {
    if a == [] {
      assert a + b == b;
    } else {
      assert (a + b)[1..] == a[1..] + b;
      DocRecordsAppend(a[1..], b, recentChanges);
    }
  }
}
