/**
 * What `parse_xml` promises about its output, proved about the
 * specification `Utils.Flatten` that `Utils.ParseXml` is verified against:
 * record count, order, where every field comes from, which time key a
 * record has, and which parts of the document are ignored.
 */
module Properties {
  import opened Wrappers
  import opened ElementTree
  import opened Utils

  /**
   * `r` is the record the code builds for the event child `ev` of `stop`:
   * the stop's id and train number, the event's own `ppth`, the type tag
   * that matches the event's tag, and the one time key of the mode.
   */
  predicate Describes(r: Record, stop: Element, ev: Element, recentChanges: bool)
  {
    && r.sId == Get(stop, "id")
    && r.trainId == TrainId(stop)
    && ((ev.tag == "ar" && r.eventType.Label() == "arrival")
        || (ev.tag == "dp" && r.eventType.Label() == "departure"))
    && r.plannedPath == Get(ev, "ppth")
    && r.time == (if recentChanges then Actual(Get(ev, "ct")) else Scheduled(Get(ev, "pt")))
  }

  /** The k-th record of a run of events is built from the k-th event. */
  lemma {:induction false} EventRecordsAt(sId: Option<string>, trainId: Option<string>, evs: seq<Element>,
                                          kind: EventType, recentChanges: bool, k: nat)
    requires k < |evs|
    ensures EventRecords(sId, trainId, evs, kind, recentChanges)[k]
         == Record(sId, trainId, Get(evs[k], "ppth"), kind, TimeOf(evs[k], recentChanges))
  {
    if k > 0 {
      EventRecordsAt(sId, trainId, evs[1..], kind, recentChanges, k - 1);
    }
  }

  /**
   * Within one stop: first the arrivals, each from its `ar` child in
   * document order, then the departures, each from its `dp` child.
   */
  lemma StopRecordsOrder(stop: Element, recentChanges: bool)
    ensures var rs := StopRecords(stop, recentChanges);
            var ars := FindAll(stop.children, "ar");
            var dps := FindAll(stop.children, "dp");
            && |rs| == |ars| + |dps|
            && (forall k :: 0 <= k < |ars| ==> Describes(rs[k], stop, ars[k], recentChanges))
            && (forall k :: 0 <= k < |dps| ==> Describes(rs[|ars| + k], stop, dps[k], recentChanges))
            && (forall i, j :: 0 <= i < j < |rs| && rs[i].eventType == Departure ==> rs[j].eventType == Departure)
  {
    var rs := StopRecords(stop, recentChanges);
    var ars := FindAll(stop.children, "ar");
    var dps := FindAll(stop.children, "dp");
    FindAllMembers(stop.children, "ar");
    FindAllMembers(stop.children, "dp");
    forall k | 0 <= k < |ars| ensures Describes(rs[k], stop, ars[k], recentChanges) {
      EventRecordsAt(Get(stop, "id"), TrainId(stop), ars, Arrival, recentChanges, k);
      assert ars[k] in ars;
    }
    forall k | 0 <= k < |dps| ensures Describes(rs[|ars| + k], stop, dps[k], recentChanges) {
      EventRecordsAt(Get(stop, "id"), TrainId(stop), dps, Departure, recentChanges, k);
      assert dps[k] in dps;
    }
    forall i | 0 <= i < |rs|
      ensures rs[i].eventType == if i < |ars| then Arrival else Departure
    {
      if i < |ars| {
        EventRecordsAt(Get(stop, "id"), TrainId(stop), ars, Arrival, recentChanges, i);
      } else {
        EventRecordsAt(Get(stop, "id"), TrainId(stop), dps, Departure, recentChanges, i - |ars|);
      }
    }
  }

  /**
   * Stops are processed in document order: the records of the i-th `s`
   * child sit between those of the stops before it and those after it.
   */
  lemma FlattenStopOrder(root: Element, recentChanges: bool, i: nat)
    requires i < |FindAll(root.children, "s")|
    ensures var stops := FindAll(root.children, "s");
            Flatten(root, recentChanges)
            == DocRecords(stops[..i], recentChanges) + StopRecords(stops[i], recentChanges)
               + DocRecords(stops[i + 1..], recentChanges)
  {
    var stops := FindAll(root.children, "s");
    assert stops == stops[..i] + ([stops[i]] + stops[i + 1..]);
    DocRecordsAppend(stops[..i], [stops[i]] + stops[i + 1..], recentChanges);
    assert ([stops[i]] + stops[i + 1..])[1..] == stops[i + 1..];
  }

  /** Every record of a stop comes from one of its `ar` or `dp` children. */
  lemma StopProvenance(stop: Element, recentChanges: bool)
    ensures forall r :: r in StopRecords(stop, recentChanges) ==>
              exists ev :: ev in stop.children && Describes(r, stop, ev, recentChanges)
  {
    StopRecordsOrder(stop, recentChanges);
    var rs := StopRecords(stop, recentChanges);
    var ars := FindAll(stop.children, "ar");
    var dps := FindAll(stop.children, "dp");
    FindAllMembers(stop.children, "ar");
    FindAllMembers(stop.children, "dp");
    forall r | r in rs ensures exists ev :: ev in stop.children && Describes(r, stop, ev, recentChanges) {
      var k :| 0 <= k < |rs| && rs[k] == r;
      if k < |ars| {
        assert ars[k] in ars;
        assert Describes(r, stop, ars[k], recentChanges);
      } else {
        assert dps[k - |ars|] in dps;
        assert Describes(rs[|ars| + (k - |ars|)], stop, dps[k - |ars|], recentChanges);
      }
    }
  }

  lemma {:induction false} DocProvenance(stops: seq<Element>, recentChanges: bool)
    ensures forall r :: r in DocRecords(stops, recentChanges) ==>
              exists stop, ev :: stop in stops && ev in stop.children && Describes(r, stop, ev, recentChanges)
  {
    if stops != [] {
      DocProvenance(stops[1..], recentChanges);
      StopProvenance(stops[0], recentChanges);
      forall r | r in DocRecords(stops, recentChanges)
        ensures exists stop, ev :: stop in stops && ev in stop.children && Describes(r, stop, ev, recentChanges)
      {
        if r in StopRecords(stops[0], recentChanges) {
          var ev :| ev in stops[0].children && Describes(r, stops[0], ev, recentChanges);
          assert stops[0] in stops;
        } else {
          assert r in DocRecords(stops[1..], recentChanges);
          var stop, ev :| stop in stops[1..] && ev in stop.children && Describes(r, stop, ev, recentChanges);
          assert stop in stops;
        }
      }
    }
  }

  /**
   * Every output record was built from an `ar` or `dp` child of an `s`
   * child of the root, with all its fields taken from those two elements.
   */
  lemma Provenance(root: Element, recentChanges: bool)
    ensures forall r :: r in Flatten(root, recentChanges) ==>
              exists stop, ev :: stop in root.children && stop.tag == "s" && ev in stop.children
                                 && Describes(r, stop, ev, recentChanges)
  {
    DocProvenance(FindAll(root.children, "s"), recentChanges);
    FindAllMembers(root.children, "s");
  }

  lemma StopCompleteness(stop: Element, recentChanges: bool)
    ensures forall ev :: ev in stop.children && (ev.tag == "ar" || ev.tag == "dp") ==>
              exists r :: r in StopRecords(stop, recentChanges) && Describes(r, stop, ev, recentChanges)
  {
    StopRecordsOrder(stop, recentChanges);
    var rs := StopRecords(stop, recentChanges);
    var ars := FindAll(stop.children, "ar");
    var dps := FindAll(stop.children, "dp");
    FindAllMembers(stop.children, "ar");
    FindAllMembers(stop.children, "dp");
    forall ev | ev in stop.children && (ev.tag == "ar" || ev.tag == "dp")
      ensures exists r :: r in rs && Describes(r, stop, ev, recentChanges)
    {
      if ev.tag == "ar" {
        assert ev in ars;
        var k :| 0 <= k < |ars| && ars[k] == ev;
        assert rs[k] in rs;
      } else {
        assert ev in dps;
        var k :| 0 <= k < |dps| && dps[k] == ev;
        assert rs[|ars| + k] in rs;
      }
    }
  }

  lemma {:induction false} DocCompleteness(stops: seq<Element>, recentChanges: bool)
    ensures forall stop, ev :: stop in stops && ev in stop.children && (ev.tag == "ar" || ev.tag == "dp") ==>
              exists r :: r in DocRecords(stops, recentChanges) && Describes(r, stop, ev, recentChanges)
  {
    if stops != [] {
      DocCompleteness(stops[1..], recentChanges);
      StopCompleteness(stops[0], recentChanges);
      forall stop, ev | stop in stops && ev in stop.children && (ev.tag == "ar" || ev.tag == "dp")
        ensures exists r :: r in DocRecords(stops, recentChanges) && Describes(r, stop, ev, recentChanges)
      {
        if stop == stops[0] {
          var r :| r in StopRecords(stops[0], recentChanges) && Describes(r, stop, ev, recentChanges);
          assert r in DocRecords(stops, recentChanges);
        } else {
          assert stop in stops[1..];
          var r :| r in DocRecords(stops[1..], recentChanges) && Describes(r, stop, ev, recentChanges);
          assert r in DocRecords(stops, recentChanges);
        }
      }
    }
  }

  /** Every `ar` and `dp` child of every `s` child of the root yields a record. */
  lemma Completeness(root: Element, recentChanges: bool)
    ensures forall stop, ev :: stop in root.children && stop.tag == "s" && ev in stop.children
                               && (ev.tag == "ar" || ev.tag == "dp") ==>
              exists r :: r in Flatten(root, recentChanges) && Describes(r, stop, ev, recentChanges)
  {
    DocCompleteness(FindAll(root.children, "s"), recentChanges);
    FindAllMembers(root.children, "s");
  }

  /**
   * In planned mode every record has a `scheduled_time` key and no
   * `actual_time` key; in change mode it is the other way round.
   */
  lemma TimeKeyByMode(root: Element, recentChanges: bool)
    ensures forall r :: r in Flatten(root, recentChanges) ==>
              && ("scheduled_time" in r.Keys() <==> !recentChanges)
              && ("actual_time" in r.Keys() <==> recentChanges)
  {
    Provenance(root, recentChanges);
  }

  /**
   * The output is empty exactly when no `s` child of the root has an `ar`
   * or `dp` child; in particular a document without stops, or whose stops
   * have no events, yields no records.
   */
  lemma EmptyIffNoEvents(root: Element, recentChanges: bool)
    ensures Flatten(root, recentChanges) == [] <==>
            forall stop, ev :: stop in root.children && stop.tag == "s" && ev in stop.children
                               ==> ev.tag != "ar" && ev.tag != "dp"
  {
    Provenance(root, recentChanges);
    Completeness(root, recentChanges);
    if Flatten(root, recentChanges) != [] {
      assert Flatten(root, recentChanges)[0] in Flatten(root, recentChanges);
    }
  }

  /** A stop without `ar` and `dp` children contributes no records. */
  lemma StopWithoutEvents(stop: Element, recentChanges: bool)
    ensures StopRecords(stop, recentChanges) == [] <==>
            forall ev :: ev in stop.children ==> ev.tag != "ar" && ev.tag != "dp"
  {
    FindAllMembers(stop.children, "ar");
    FindAllMembers(stop.children, "dp");
    var ars := FindAll(stop.children, "ar");
    var dps := FindAll(stop.children, "dp");
    if ars != [] {
      assert ars[0] in ars;
    }
    if dps != [] {
      assert dps[0] in dps;
    }
  }

  /** The train number is `n` of the FIRST `tl` child; later ones are ignored. */
  lemma TrainIdOfFirstLabel(stop: Element, before: seq<Element>, tl: Element, after: seq<Element>)
    requires stop.children == before + [tl] + after
    requires tl.tag == "tl"
    requires forall c :: c in before ==> c.tag != "tl"
    ensures TrainId(stop) == Get(tl, "n")
  {
    FindAllAppend(before + [tl], after, "tl");
    FindAllAppend(before, [tl], "tl");
    FindAllMembers(before, "tl");
    if FindAll(before, "tl") != [] {
      assert FindAll(before, "tl")[0] in FindAll(before, "tl");
    }
  }

  /** A stop without a `tl` child has no train number. */
  lemma TrainIdWithoutLabel(stop: Element)
    requires forall c :: c in stop.children ==> c.tag != "tl"
    ensures TrainId(stop) == None
  {
  }

  /**
   * Only `s` children of the root are read: inserting a child with any
   * other tag anywhere (an `ar` outside a stop, say) changes nothing.
   */
  lemma OtherRootChildIgnored(tag: string, attrib: map<string, string>,
                              before: seq<Element>, x: Element, after: seq<Element>, recentChanges: bool)
    requires x.tag != "s"
    ensures Flatten(Element(tag, attrib, before + [x] + after), recentChanges)
         == Flatten(Element(tag, attrib, before + after), recentChanges)
  {
    FindAllSkipsOtherTag(before, x, after, "s");
  }

  /**
   * Only `tl`, `ar` and `dp` children of a stop are read: inserting a
   * child with any other tag (a nested `s`, say) changes nothing.
   */
  lemma OtherStopChildIgnored(tag: string, attrib: map<string, string>,
                              before: seq<Element>, x: Element, after: seq<Element>, recentChanges: bool)
    requires x.tag != "tl" && x.tag != "ar" && x.tag != "dp"
    ensures StopRecords(Element(tag, attrib, before + [x] + after), recentChanges)
         == StopRecords(Element(tag, attrib, before + after), recentChanges)
  {
    var withX := Element(tag, attrib, before + [x] + after);
    var withoutX := Element(tag, attrib, before + after);
    FindAllSkipsOtherTag(before, x, after, "tl");
    FindAllSkipsOtherTag(before, x, after, "ar");
    FindAllSkipsOtherTag(before, x, after, "dp");
    assert TrainId(withX) == TrainId(withoutX);
  }

  /**
   * A stop `A1` with one arrival (`pt`, `ppth` set) and one departure
   * (`pt` set). Planned mode gives two flat records with the raw `pt`
   * strings; change mode gives the same two with `actual_time` None.
   */
  lemma SingleStopFeed()
    ensures var doc := Element("timetable", map[], [
              Element("s", map["id" := "A1"], [
                Element("ar", map["pt" := "2501151030", "ppth" := "X|Y"], []),
                Element("dp", map["pt" := "2501151035"], [])])]);
            && Flatten(doc, false) == [
                 Record(Some("A1"), None, Some("X|Y"), Arrival, Scheduled(Some("2501151030"))),
                 Record(Some("A1"), None, None, Departure, Scheduled(Some("2501151035")))]
            && Flatten(doc, true) == [
                 Record(Some("A1"), None, Some("X|Y"), Arrival, Actual(None)),
                 Record(Some("A1"), None, None, Departure, Actual(None))]
  {
  }
}
