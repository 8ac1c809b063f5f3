# Timetable XML flattener

This project models `parse_xml` from the Deutsche Bahn timetable ingestion
package (`ingestion/utils.py`). The function takes a timetable document
from the Timetables API and returns a flat list of event records. A
document is a root element whose `s` (stop) children each have an optional
`tl` (trip label) child and any number of `ar` (arrival) and `dp`
(departure) children. Each record is a dict with these keys:

- `s_id`: the stop's `id`;
- `train_id`: `n` of the stop's first `tl`;
- `planned_path`: the event's own `ppth`;
- `type`: `"arrival"` or `"departure"`;
- exactly one time key: `scheduled_time` (from `pt`) in planned mode, or
  `actual_time` (from `ct`) when `recent_changes` is set.

Any attribute that is missing gives None.

Files:

- `wrappers.dfy`: `Option`, standing for Python's value-or-`None`.
- `element_tree.dfy`: the already-parsed document, as the `Element`
  datatype (tag, attribute map, ordered children). It also models the three
  `xml.etree.ElementTree` queries the code uses: `attrib.get` (`Get`),
  `findall` (`FindAll`) and `find` (`Find`). With a plain tag name, both
  queries look at direct children only, in document order.
- `utils.dfy`: the record datatype and the specification functions
  (`EventRecords`, `StopRecords`, `DocRecords`, `Flatten`). It also holds the
  imperative `ParseXml`, which is verified against `Flatten`.
  - The time key is a tagged choice, `Scheduled(Option<string>) | Actual(Option<string>)`.
    This keeps "key absent" apart from "key present with value None".
  - `Record.Keys` gives the dict's key set.
  - `StationNames` is the station list constant, kept as data.
- `properties.dfy`: what the output satisfies. This covers record count,
  order, where each field comes from, which time key is present, which
  parts of the document are ignored, and a worked example.

## Model

| member | source | states |
|---|---|---|
| `ElementTree.Get` | ingestion/utils.py:21 | `attrib.get`: None exactly when the attribute is absent, otherwise its value. Every field read with it (lines 21, 25, 29, 37, 41, 50, 58, 61) therefore gives None for a missing attribute, never an error |
| `ElementTree.Find` | ingestion/utils.py:24 | `find`: a result, when there is one, is a direct child carrying the tag (which one is fixed by `FindIsFirstOfFindAll`) |
| `ElementTree.FindAll` | ingestion/utils.py:20 | `findall` returns as many elements as there are direct children with the tag |
| `ElementTree.FindAllMembers` | ingestion/utils.py:27 | `findall` returns exactly the direct children that carry the tag: no others, and none missing |
| `ElementTree.FindAllAppend` | ingestion/utils.py:48 | `findall` over concatenated children is the concatenation of the results, so document order is kept |
| `ElementTree.NoMatchFindsNothing` | ingestion/utils.py:20 | children none of which has the tag yield the empty list |
| `ElementTree.FindAllSkipsOtherTag` | ingestion/utils.py:20 | inserting a child with another tag anywhere leaves `findall` unchanged |
| `ElementTree.FindIsFirstOfFindAll` | ingestion/utils.py:24 | `find` is None when `findall` is empty, and otherwise its first element |
| `Utils.Record.Keys` | ingestion/utils.py:30-42 | a record has the four fixed keys and exactly one time key: `scheduled_time` for a scheduled time, `actual_time` for an actual one (five keys in all) |
| `Utils.TrainId` | ingestion/utils.py:24-25 | the train number is `n` of the first `tl` child, or None when there is no `tl` child |
| `Utils.TimeOf` | ingestion/utils.py:36-42 | the time key is `scheduled_time` exactly in planned mode, holding `pt` (or None); otherwise `actual_time`, holding `ct` (or None) |
| `Utils.EventRecord` | ingestion/utils.py:29-42 | the record dict built for one event: its type is the event kind, its `planned_path` is the event's `ppth`, and its key set has `scheduled_time` exactly in planned mode and `actual_time` exactly in change mode |
| `Utils.EventRecords` | ingestion/utils.py:27-43 | one record per event element |
| `Utils.StopRecords` | ingestion/utils.py:21-66 | the records of one stop: its arrival records then its departure records, one per `ar` and `dp` child (the length is the number of such children) |
| `Utils.DocRecords` | ingestion/utils.py:20-66 | the records of a run of stops, stop after stop; the length is the number of `ar` and `dp` children summed over the stops |
| `Utils.Flatten` | ingestion/utils.py:20-67 | the reference result of `parse_xml`: the records of the root's `s` children in order; the output length is the number of `ar` and `dp` children summed over those stops |
| `Utils.ParseXml` | ingestion/utils.py:15-67 | the nested loops over stops and their arrivals and departures return exactly `Flatten(root, recentChanges)`; `recentChanges` defaults to false, as `recent_changes` does |
| `Utils.AppendEvents` | ingestion/utils.py:27-46 | the inner loop (written twice in the source, lines 27-46 and 48-66) appends, in order, one record per event element of the given kind to the accumulator |
| `Utils.DocRecordsAppend` | ingestion/utils.py:20 | the records of consecutive runs of stops are the concatenation of each run's records |
| `Properties.EventRecordsAt` | ingestion/utils.py:29-42 | the k-th record of a run of events has the stop's id and train number, the k-th event's `ppth`, the run's type, and the time key of the mode |
| `Properties.StopRecordsOrder` | ingestion/utils.py:27-66 | a stop yields its arrivals in document order, then its departures in document order; no arrival follows a departure |
| `Properties.FlattenStopOrder` | ingestion/utils.py:20-67 | the i-th stop's records come after those of the earlier stops and before those of the later ones |
| `Properties.StopProvenance` | ingestion/utils.py:27-63 | every record of a stop is built from one of its own `ar`/`dp` children |
| `Properties.Provenance` | ingestion/utils.py:20-63 | every output record comes from an `ar` or `dp` child of an `s` child of the root. Its `s_id` is the stop's `id`, its `train_id` is the stop's train number, its `type` matches the event's tag, and its `planned_path` and time key come from the event |
| `Properties.Completeness` | ingestion/utils.py:20-63 | every `ar` and `dp` child of every `s` child of the root has such a record in the output |
| `Properties.TimeKeyByMode` | ingestion/utils.py:36-62 | in planned mode every record has `scheduled_time` and no `actual_time`; in change mode the reverse |
| `Properties.EmptyIffNoEvents` | ingestion/utils.py:18-67 | the output is empty if and only if no stop of the root has an `ar` or `dp` child |
| `Properties.StopWithoutEvents` | ingestion/utils.py:27-66 | a stop contributes no records if and only if it has no `ar` and no `dp` child |
| `Properties.TrainIdOfFirstLabel` | ingestion/utils.py:24-25 | with several `tl` children, the train number is the first one's `n` |
| `Properties.TrainIdWithoutLabel` | ingestion/utils.py:24-25 | a stop without a `tl` child has train number None |
| `Properties.OtherRootChildIgnored` | ingestion/utils.py:20 | a root child whose tag is not `s` (an `ar` outside any stop, say) does not change the output |
| `Properties.OtherStopChildIgnored` | ingestion/utils.py:24-48 | a stop child whose tag is not `tl`, `ar` or `dp` (a nested `s`, say) does not change that stop's records |
| `Properties.SingleStopFeed` | ingestion/utils.py:15-67 | a document with one stop `A1` holding one arrival and one departure gives two records. Planned mode carries the raw `pt` strings; change mode carries `actual_time` None |

## Left out

- `ET.fromstring` (ingestion/utils.py:17): text parsing belongs to the XML library. The model starts from the parsed element tree. Malformed XML, which makes `fromstring` raise, is outside the model.
- Text content, tails and namespaces of XML elements are not modelled. The code reads only tags, attributes and direct children.
- The `except` branches of the two inner loops (ingestion/utils.py:44-46, 64-66) only print. Nothing in the `try` bodies can raise, because attributes are read with `.get`, so the loop bodies are modelled as total.
- Utils.AppendEvents: the two source loops have identical bodies apart from the event kind. They are modelled as one method, called once for `ar` and once for `dp`. The order of records and the accumulator are the same.
- `fetch_eva_number` (ingestion/utils.py:5-13) and every `save_to_db` / `update_db` function are database round-trips through psycopg.
- The HTTP fetchers (`fetch_planned_timetable`, `fetch_recent_changes`, `fetch_weather`, the station download script) are network clients.
- `fetch_coordinates` ends in `float()` conversion of a database column whose format is not visible. It is left out.
- The `main` loops of fetch_timetables.py and update_timetables.py are orchestration over I/O.
- `parse_recent_changes` is imported by ingestion/update_timetables.py:5 but never defined in ingestion/utils.py. There is no code to model.
- streamlit_app.py is a dashboard that reads a database table.
- A design description of this system mentions several features the code does not implement. The model follows the code. The missing features are:
  - a map of stops keyed by service id with last-seen-wins;
  - decoding of `YYMMDDHHMM` timestamps;
  - dropping stops that have no events at the write boundary;
  - insert-or-ignore persistence.

  The code returns a flat list of per-event records and keeps times as raw strings. A stop without events simply yields no records. The insert is a plain `INSERT`.
