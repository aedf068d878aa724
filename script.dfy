/**
 * The stand-alone alerts script: turning a decoded GTFS Realtime feed into
 * one record per alert (language selection for the header and description,
 * copied active periods and informed entities), and rendering a record as
 * display lines.
 */
module LegacyScript {
  import opened Options
  import opened Strings

  // ---------------------------------------------------------------------
  // The decoded feed
  // ---------------------------------------------------------------------

  /** One translation of a translated string. */
  datatype Translation = Translation(text: string, language: string)

  /**
   * An active period. `start` and `end` are the period's timestamps as the
   * script renders them once converted to local date and time; `None` when
   * the feed leaves them out.
   */
  datatype TimeRange = TimeRange(start: Option<string>, end: Option<string>)

  /** An informed-entity selector, with the three fields the script reads. */
  datatype EntitySelector = EntitySelector(agencyId: Option<string>, routeId: Option<string>, stopId: Option<string>)

  /**
   * A decoded `Alert` message. A translated-string field is `None` when the
   * message does not carry it, and otherwise holds its translations in order.
   */
  datatype GtfsAlert = GtfsAlert(
    activePeriod: seq<TimeRange>,
    informedEntity: seq<EntitySelector>,
    cause: int,
    effect: int,
    url: Option<seq<Translation>>,
    headerText: Option<seq<Translation>>,
    descriptionText: Option<seq<Translation>>)

  /** A feed entity: its id and, when it carries one, its alert. */
  datatype FeedEntity = FeedEntity(id: string, alert: Option<GtfsAlert>)

  /** The record the script builds per alert; period and entity records are dictionaries with optional keys. */
  datatype AlertData = AlertData(
    id: string,
    cause: int,
    effect: int,
    url: string,
    headerText: string,
    descriptionText: string,
    activePeriod: seq<map<string, string>>,
    informedEntity: seq<map<string, string>>)

  // ---------------------------------------------------------------------
  // Choosing the text of a translated string
  // ---------------------------------------------------------------------

  /**
   * The text the translation loop settles on: an English translation always
   * overwrites it, any other only fills it while it is still empty.
   */
  function Chosen(ts: seq<Translation>): string
    decreases |ts|
  {
    if ts == [] then ""
    else
      var prev, t := Chosen(ts[..|ts| - 1]), ts[|ts| - 1];
      if t.language == "en" || prev == "" then t.text else prev
  }

  /** Translation `i` is the first one whose text is not empty. */
  predicate FirstTextAt(ts: seq<Translation>, i: int)
  {
    0 <= i < |ts| && ts[i].text != "" && forall j :: 0 <= j < i ==> ts[j].text == ""
  }

  /** The text of the first translation whose text is not empty, or the empty string when there is none. */
  function FirstNonEmpty(ts: seq<Translation>): (r: string)
    ensures r == "" <==> forall i :: 0 <= i < |ts| ==> ts[i].text == ""
    ensures r != "" ==> exists i :: FirstTextAt(ts, i) && ts[i].text == r
    decreases |ts|
  {
    if ts == [] then ""
    else if ts[0].text != "" then
      assert FirstTextAt(ts, 0);
      ts[0].text
    else
      var r := FirstNonEmpty(ts[1..]);
      assert forall i :: 0 < i < |ts| ==> ts[i] == ts[1..][i - 1];
      FirstTextShift(ts, r);
      r
  }

  /** A first text of `ts[1..]` is a first text of `ts` one position on, when `ts[0]` has no text. */
  lemma FirstTextShift(ts: seq<Translation>, r: string)
    requires ts != [] && ts[0].text == ""
    requires r != "" ==> exists i :: FirstTextAt(ts[1..], i) && ts[1..][i].text == r
    ensures r != "" ==> exists i :: FirstTextAt(ts, i) && ts[i].text == r
  {
    if r != "" {
      var i :| FirstTextAt(ts[1..], i) && ts[1..][i].text == r;
      assert ts[i + 1] == ts[1..][i];
      assert FirstTextAt(ts, i + 1);
    }
  }

  /** A translation added at the end decides only when no earlier one has text. */
  lemma {:induction false} FirstNonEmptySnoc(s: seq<Translation>, t: Translation)
    ensures FirstNonEmpty(s + [t]) == if FirstNonEmpty(s) == "" then t.text else FirstNonEmpty(s)
    decreases |s|
  {
    var u := s + [t];
    if s == [] {
      assert u == [t] && u[1..] == [];
    } else {
      assert u[0] == s[0] && u[1..] == s[1..] + [t];
      FirstNonEmptySnoc(s[1..], t);
    }
  }

  /** The position of the last English translation, or -1 when there is none. */
  function LastEnglish(ts: seq<Translation>): (k: int)
    ensures -1 <= k < |ts|
    ensures k >= 0 ==> ts[k].language == "en"
    ensures forall j :: k < j < |ts| ==> ts[j].language != "en"
    decreases |ts|
  {
    if ts == [] then -1
    else if ts[|ts| - 1].language == "en" then |ts| - 1
    else
      var init := ts[..|ts| - 1];
      assert forall j :: 0 <= j < |init| ==> init[j] == ts[j];
      LastEnglish(init)
  }

  /** Where the deciding run of translations starts: at the last English one, or at the first one. */
  function DecidingStart(ts: seq<Translation>): (k: nat)
    ensures k <= |ts|
  {
    if LastEnglish(ts) < 0 then 0 else LastEnglish(ts)
  }

  /**
   * A reference definition of the translation loop: its text is the first
   * non-empty text from the last English translation on, or from the first
   * translation when none is English.
   */
  lemma {:induction false} ChosenFromLastEnglish(ts: seq<Translation>)
    ensures Chosen(ts) == FirstNonEmpty(ts[DecidingStart(ts)..])
    decreases |ts|
  {
    if ts != [] {
      var init, t := ts[..|ts| - 1], ts[|ts| - 1];
      if t.language == "en" {
        EnglishLastDecides(ts);
      } else {
        ChosenFromLastEnglish(init);
        assert ts == init + [t];
        OtherLastExtends(init, t);
      }
    }
  }

  /** An English translation at the end is chosen, and is where the deciding run starts. */
  lemma EnglishLastDecides(ts: seq<Translation>)
    requires ts != [] && ts[|ts| - 1].language == "en"
    ensures Chosen(ts) == FirstNonEmpty(ts[DecidingStart(ts)..])
  {
    var t := ts[|ts| - 1];
    assert ts[|ts| - 1..] == [t];
    assert [t][1..] == [];
  }

  /** A translation at the end that is not English extends the deciding run of the ones before it. */
  lemma OtherLastExtends(init: seq<Translation>, t: Translation)
    requires t.language != "en"
    requires Chosen(init) == FirstNonEmpty(init[DecidingStart(init)..])
    ensures Chosen(init + [t]) == FirstNonEmpty((init + [t])[DecidingStart(init + [t])..])
  {
    ChosenSnoc(init, t);
    LastEnglishSnoc(init, t);
    var k := DecidingStart(init);
    SliceSnoc(init, t, k);
    FirstNonEmptySnoc(init[k..], t);
  }

  /** A slice running to the end of a sequence grows with what is appended to it. */
  lemma SliceSnoc<T>(s: seq<T>, x: T, k: nat)
    requires k <= |s|
    ensures (s + [x])[k..] == s[k..] + [x]
  {
  }

  /** One pass of the loop body on a translation appended at the end. */
  lemma ChosenSnoc(init: seq<Translation>, t: Translation)
    ensures Chosen(init + [t]) == if t.language == "en" || Chosen(init) == "" then t.text else Chosen(init)
  {
    assert (init + [t])[..|init|] == init;
  }

  /** A translation appended at the end that is not English leaves the last English position where it was. */
  lemma LastEnglishSnoc(init: seq<Translation>, t: Translation)
    requires t.language != "en"
    ensures LastEnglish(init + [t]) == LastEnglish(init)
  {
    assert (init + [t])[..|init|] == init;
  }

  /** Without an English translation the first non-empty text is chosen, or the empty string. */
  lemma NoEnglishChoosesFirstText(ts: seq<Translation>)
    requires forall j :: 0 <= j < |ts| ==> ts[j].language != "en"
    ensures Chosen(ts) == FirstNonEmpty(ts)
  {
    ChosenFromLastEnglish(ts);
    assert ts[0..] == ts;
  }

  /** The last English translation wins whenever its text is not empty, whatever follows it. */
  lemma LastEnglishWins(ts: seq<Translation>, j: nat)
    requires j < |ts| && ts[j].language == "en" && ts[j].text != ""
    requires forall i :: j < i < |ts| ==> ts[i].language != "en"
    ensures Chosen(ts) == ts[j].text
  {
    ChosenFromLastEnglish(ts);
    assert LastEnglish(ts) == j;
    assert FirstTextAt(ts[j..], 0);
  }

  /** The text of a translated-string field: the empty string when the alert does not carry the field. */
  function SelectedText(field: Option<seq<Translation>>): string
  {
    if field.Some? then Chosen(field.value) else ""
  }

  /** The translation loop of one field, as the script runs it. */
  method SelectText(field: Option<seq<Translation>>) returns (text: string)
    ensures text == SelectedText(field)
  {
    text := "";
    if field.Some? {
      var ts := field.value;
      for i := 0 to |ts|
        invariant text == Chosen(ts[..i])
      {
        assert ts[..i + 1][..i] == ts[..i];
        if ts[i].language == "en" || text == "" {
          text := ts[i].text;
        }
      }
      assert ts[..|ts|] == ts;
    }
  }

  // ---------------------------------------------------------------------
  // Period and entity records
  // ---------------------------------------------------------------------

  /** The record of an active period: a key for each timestamp the period has. */
  function PeriodData(p: TimeRange): (m: map<string, string>)
    ensures m.Keys <= {"start", "end"}
    ensures "start" in m <==> p.start.Some?
    ensures "end" in m <==> p.end.Some?
    ensures p.start.Some? ==> m["start"] == p.start.value
    ensures p.end.Some? ==> m["end"] == p.end.value
  {
    var m0: map<string, string> := map[];
    var m1 := if p.start.Some? then m0["start" := p.start.value] else m0;
    if p.end.Some? then m1["end" := p.end.value] else m1
  }

  /** The record of an informed entity: a key for each of route, stop and agency that the selector has. */
  function EntityData(e: EntitySelector): (m: map<string, string>)
    ensures m.Keys <= {"route_id", "stop_id", "agency_id"}
    ensures "route_id" in m <==> e.routeId.Some?
    ensures "stop_id" in m <==> e.stopId.Some?
    ensures "agency_id" in m <==> e.agencyId.Some?
    ensures e.routeId.Some? ==> m["route_id"] == e.routeId.value
    ensures e.stopId.Some? ==> m["stop_id"] == e.stopId.value
    ensures e.agencyId.Some? ==> m["agency_id"] == e.agencyId.value
  {
    var m0: map<string, string> := map[];
    var m1 := if e.routeId.Some? then m0["route_id" := e.routeId.value] else m0;
    var m2 := if e.stopId.Some? then m1["stop_id" := e.stopId.value] else m1;
    if e.agencyId.Some? then m2["agency_id" := e.agencyId.value] else m2
  }

  /** The period loop: one record per period, in order. */
  method PeriodRecords(ps: seq<TimeRange>) returns (records: seq<map<string, string>>)
    ensures |records| == |ps| && forall i :: 0 <= i < |ps| ==> records[i] == PeriodData(ps[i])
  {
    records := [];
    for i := 0 to |ps|
      invariant |records| == i && forall j :: 0 <= j < i ==> records[j] == PeriodData(ps[j])
    {
      var period: map<string, string> := map[];
      if ps[i].start.Some? {
        period := period["start" := ps[i].start.value];
      }
      if ps[i].end.Some? {
        period := period["end" := ps[i].end.value];
      }
      records := records + [period];
    }
  }

  /** The informed-entity loop: one record per selector, in order. */
  method EntityRecords(es: seq<EntitySelector>) returns (records: seq<map<string, string>>)
    ensures |records| == |es| && forall i :: 0 <= i < |es| ==> records[i] == EntityData(es[i])
  {
    records := [];
    for i := 0 to |es|
      invariant |records| == i && forall j :: 0 <= j < i ==> records[j] == EntityData(es[j])
    {
      var entity: map<string, string> := map[];
      if es[i].routeId.Some? {
        entity := entity["route_id" := es[i].routeId.value];
      }
      if es[i].stopId.Some? {
        entity := entity["stop_id" := es[i].stopId.value];
      }
      if es[i].agencyId.Some? {
        entity := entity["agency_id" := es[i].agencyId.value];
      }
      records := records + [entity];
    }
  }

  // ---------------------------------------------------------------------
  // The record of an alert, and of a whole feed
  // ---------------------------------------------------------------------

  /** The link text: the text of the first translation, or the empty string when there is no link or no translation. */
  function UrlText(url: Option<seq<Translation>>): string
  {
    if url.Some? && url.value != [] then url.value[0].text else ""
  }

  /**
   * The record built from the alert of entity `id`, with the link read
   * through `UrlText`: the corrected form of the link expression, which as
   * written raises for every alert with a link (`UrlAsWritten`).
   */
  function AlertRecord(id: string, a: GtfsAlert): AlertData
  {
    AlertData(id, a.cause, a.effect, UrlText(a.url), SelectedText(a.headerText), SelectedText(a.descriptionText),
              seq(|a.activePeriod|, i requires 0 <= i < |a.activePeriod| => PeriodData(a.activePeriod[i])),
              seq(|a.informedEntity|, i requires 0 <= i < |a.informedEntity| => EntityData(a.informedEntity[i])))
  }

  /** Building the record of one alert, as the script does it. */
  method ExtractAlert(id: string, a: GtfsAlert) returns (data: AlertData)
    ensures data == AlertRecord(id, a)
  {
    var header := SelectText(a.headerText);
    var description := SelectText(a.descriptionText);
    var periods := PeriodRecords(a.activePeriod);
    var entities := EntityRecords(a.informedEntity);
    data := AlertData(id, a.cause, a.effect, UrlText(a.url), header, description, periods, entities);
  }

  /** The records of the entities of a feed that carry an alert, in feed order. */
  function Parsed(es: seq<FeedEntity>): seq<AlertData>
    decreases |es|
  {
    if es == [] then []
    else
      var prev, e := Parsed(es[..|es| - 1]), es[|es| - 1];
      if e.alert.Some? then prev + [AlertRecord(e.id, e.alert.value)] else prev
  }

  /** What parsing a feed returns: nothing when the data does not decode (`None`). */
  function ParseResult(feed: Option<seq<FeedEntity>>): seq<AlertData>
  {
    if feed.Some? then Parsed(feed.value) else []
  }

  /** Entities are parsed one by one: the records of two feeds put together are theirs put together. */
  lemma {:induction false} ParsedAppend(xs: seq<FeedEntity>, ys: seq<FeedEntity>)
    ensures Parsed(xs + ys) == Parsed(xs) + Parsed(ys)
    decreases |ys|
  {
    if ys == [] {
      assert xs + ys == xs;
    } else {
      var ys', y := ys[..|ys| - 1], ys[|ys| - 1];
      ParsedAppend(xs, ys');
      assert (xs + ys)[..|xs + ys| - 1] == xs + ys' && (xs + ys)[|xs + ys| - 1] == y;
    }
  }

  /** One record per entity that carries an alert, so never more records than entities. */
  lemma {:induction false} ParsedLength(es: seq<FeedEntity>)
    ensures |Parsed(es)| <= |es|
    ensures (forall i :: 0 <= i < |es| ==> es[i].alert.Some?) ==> |Parsed(es)| == |es|
    decreases |es|
  {
    if es != [] {
      var init := es[..|es| - 1];
      assert forall i :: 0 <= i < |init| ==> init[i] == es[i];
      ParsedLength(init);
    }
  }

  /**
   * The loop over the feed, with the whole-feed fallback to no records when
   * the data does not decode. The link is read through the corrected
   * `UrlText`; `ParsedAsWritten` is the loop with the link expression as
   * written.
   */
  method ParseGtfsRtAlerts(feed: Option<seq<FeedEntity>>) returns (alerts: seq<AlertData>)
    ensures alerts == ParseResult(feed)
  {
    alerts := [];
    if feed.None? {
      return;
    }
    var es := feed.value;
    for i := 0 to |es|
      invariant alerts == Parsed(es[..i])
    {
      assert es[..i + 1][..i] == es[..i];
      if es[i].alert.Some? {
        var data := ExtractAlert(es[i].id, es[i].alert.value);
        alerts := alerts + [data];
      }
    }
    assert es[..|es|] == es;
  }

  /** The alert of the parser sample: English header and description, one period, one route, no link. */
  function ParserSample(start: string, end: string): GtfsAlert
  {
    GtfsAlert([TimeRange(Some(start), Some(end))], [EntitySelector(None, Some("501"), None)], 3, 3,
              None, Some([Translation("Test Alert", "en")]), Some([Translation("Test Description", "en")]))
  }

  /** The parser sample gives one record with the English texts, one period, the route and an empty link. */
  lemma ParserSampleRecord(start: string, end: string)
    ensures var r := ParseResult(Some([FeedEntity("test_alert_1", Some(ParserSample(start, end)))]));
      |r| == 1 && r[0].id == "test_alert_1" && r[0].cause == 3 && r[0].effect == 3 &&
      r[0].headerText == "Test Alert" && r[0].descriptionText == "Test Description" && r[0].url == "" &&
      r[0].activePeriod == [map["start" := start, "end" := end]] &&
      r[0].informedEntity == [map["route_id" := "501"]]
  {
    var es := [FeedEntity("test_alert_1", Some(ParserSample(start, end)))];
    var d := AlertRecord("test_alert_1", ParserSample(start, end));
    assert es[..0] == [];
    assert Parsed(es) == Parsed([]) + [d];
    assert Chosen([Translation("Test Alert", "en")]) == "Test Alert" by {
      assert [Translation("Test Alert", "en")][..0] == [];
    }
    assert Chosen([Translation("Test Description", "en")]) == "Test Description" by {
      assert [Translation("Test Description", "en")][..0] == [];
    }
    assert PeriodData(TimeRange(Some(start), Some(end))) == map["start" := start, "end" := end];
    assert EntityData(EntitySelector(None, Some("501"), None)) == map["route_id" := "501"];
  }

  // ---------------------------------------------------------------------
  // The link expression as written
  // ---------------------------------------------------------------------

  /**
   * The link expression as written: with no link it yields the empty
   * string; with a link it raises (`None`), since indexing the empty
   * translation list fails and a translation message has no `get` method.
   */
  function UrlAsWritten(url: Option<seq<Translation>>): (r: Option<string>)
    ensures r.Some? <==> url.None?
    ensures r.Some? ==> r.value == ""
  {
    if url.None? then Some("") else None
  }

  /** Parsing with the link expression as written: `None` once any alert's link expression raises. */
  function ParsedAsWritten(es: seq<FeedEntity>): Option<seq<AlertData>>
    decreases |es|
  {
    if es == [] then Some([])
    else
      var prev, e := ParsedAsWritten(es[..|es| - 1]), es[|es| - 1];
      if prev.None? then None
      else if e.alert.None? then prev
      else
        match UrlAsWritten(e.alert.value.url)
        case None => None
        case Some(u) => Some(prev.value + [AlertRecord(e.id, e.alert.value).(url := u)])
  }

  /** The whole parse as written: the exception handler turns a raising entity into no records at all. */
  function ParseResultAsWritten(feed: Option<seq<FeedEntity>>): seq<AlertData>
  {
    if feed.None? then []
    else
      match ParsedAsWritten(feed.value)
      case None => []
      case Some(r) => r
  }

  /** As written, one alert with a link anywhere in the feed loses the records of every alert in it. */
  lemma {:induction false} AsWrittenLinkLosesFeed(es: seq<FeedEntity>, i: nat)
    requires i < |es| && es[i].alert.Some? && es[i].alert.value.url.Some?
    ensures ParsedAsWritten(es).None?
    ensures ParseResultAsWritten(Some(es)) == []
    decreases |es|
  {
    var init := es[..|es| - 1];
    if i < |init| {
      assert init[i] == es[i];
      AsWrittenLinkLosesFeed(init, i);
    }
  }

  /** Where no alert has a link, the parse as written and the corrected parse agree. */
  lemma {:induction false} AsWrittenAgreesWithoutLinks(es: seq<FeedEntity>)
    requires forall i :: 0 <= i < |es| ==> es[i].alert.Some? ==> es[i].alert.value.url.None?
    ensures ParsedAsWritten(es) == Some(Parsed(es))
    decreases |es|
  {
    if es != [] {
      var init := es[..|es| - 1];
      assert forall i :: 0 <= i < |init| ==> init[i] == es[i];
      AsWrittenAgreesWithoutLinks(init);
      var e := es[|es| - 1];
      if e.alert.Some? {
        var r := AlertRecord(e.id, e.alert.value);
        assert r.(url := "") == r;
      }
    }
  }

  /** The alert of the finding: everything empty but a link with one translation. */
  const LinkedAlert: GtfsAlert := GtfsAlert([], [], 1, 8, Some([Translation("https://example.com", "en")]), None, None)

  /** A feed of one alert with a link: as written it gives no records; corrected, the one record with its link. */
  lemma LinkFindingExample()
    ensures ParseResultAsWritten(Some([FeedEntity("a1", Some(LinkedAlert))])) == []
    ensures ParseResult(Some([FeedEntity("a1", Some(LinkedAlert))])) == [AlertData("a1", 1, 8, "https://example.com", "", "", [], [])]
  {
    var es := [FeedEntity("a1", Some(LinkedAlert))];
    AsWrittenLinkLosesFeed(es, 0);
    assert es[..0] == [];
    var r := AlertRecord("a1", LinkedAlert);
    assert r.activePeriod == [] && r.informedEntity == [];
    assert r == AlertData("a1", 1, 8, "https://example.com", "", "", [], []);
    assert Parsed(es) == [] + [r] == [r];
  }

  // ---------------------------------------------------------------------
  // Display
  // ---------------------------------------------------------------------

  /** Names of the GTFS Realtime `Cause` codes, as the script spells them. */
  const CauseNames: map<int, string> := map[
    1 := "Unknown", 2 := "Other", 3 := "Technical Problem", 4 := "Strike", 5 := "Demonstration",
    6 := "Accident", 7 := "Holiday", 8 := "Weather", 9 := "Maintenance", 10 := "Construction",
    11 := "Police Activity", 12 := "Medical Emergency"]

  /** Names of the GTFS Realtime `Effect` codes, as the script spells them. */
  const EffectNames: map<int, string> := map[
    1 := "No Service", 2 := "Reduced Service", 3 := "Significant Delays", 4 := "Detour",
    5 := "Additional Service", 6 := "Modified Service", 7 := "Other Effect", 8 := "Unknown Effect",
    9 := "Stop Moved"]

  /** Python's `d.get(k, default)`. */
  function Get<K, V>(d: map<K, V>, k: K, default: V): V
  {
    if k in d then d[k] else default
  }

  function CauseName(c: int): string
  {
    Get(CauseNames, c, "Unknown")
  }

  function EffectName(e: int): string
  {
    Get(EffectNames, e, "Unknown")
  }

  /** A cause renders as "Unknown" exactly when it is the code for an unknown cause or no code of the table. */
  lemma CauseUnknown(c: int)
    ensures CauseName(c) == "Unknown" <==> !(2 <= c <= 12)
  {
    if 2 <= c <= 12 {
      assert c in CauseNames;
    }
  }

  /** An effect renders as "Unknown" exactly when it is no code of the table; code 8 is "Unknown Effect". */
  lemma EffectUnknown(e: int)
    ensures EffectName(e) == "Unknown" <==> !(1 <= e <= 9)
    ensures EffectName(8) == "Unknown Effect"
  {
    if 1 <= e <= 9 {
      assert e in EffectNames;
    }
  }

  /** The display line of a period record; a missing timestamp reads "Not specified". */
  function PeriodLine(p: map<string, string>): string
  {
    "  From: " + Get(p, "start", "Not specified") + " To: " + Get(p, "end", "Not specified")
  }

  /** The display lines of the period records, one each, in order. */
  function PeriodLines(ps: seq<map<string, string>>): (r: seq<string>)
    ensures |r| == |ps|
    decreases |ps|
  {
    if ps == [] then [] else PeriodLines(ps[..|ps| - 1]) + [PeriodLine(ps[|ps| - 1])]
  }

  /** What an entity record adds to the affected list: its route, then its stop. */
  function EntityItems(e: map<string, string>): seq<string>
  {
    (if "route_id" in e then ["Route " + e["route_id"]] else []) + (if "stop_id" in e then ["Stop " + e["stop_id"]] else [])
  }

  /** The affected list of the entity records, in order. */
  function AffectedItems(es: seq<map<string, string>>): seq<string>
    decreases |es|
  {
    if es == [] then [] else AffectedItems(es[..|es| - 1]) + EntityItems(es[|es| - 1])
  }

  function DescriptionLines(a: AlertData): seq<string>
  {
    if a.descriptionText != "" then ["Description: " + a.descriptionText] else []
  }

  function UrlLines(a: AlertData): seq<string>
  {
    if a.url != "" then ["URL: " + a.url] else []
  }

  function PeriodSection(a: AlertData): seq<string>
  {
    if a.activePeriod != [] then ["Active Periods:"] + PeriodLines(a.activePeriod) else []
  }

  function AffectedLines(a: AlertData): seq<string>
  {
    var items := AffectedItems(a.informedEntity);
    if items != [] then ["Affected: " + Join(", ", items)] else []
  }

  /** The display lines of a record, in their fixed order. */
  function DisplayLines(a: AlertData): seq<string>
  {
    ["Alert ID: " + a.id, "Header: " + a.headerText] + DescriptionLines(a) + UrlLines(a)
      + ["Cause: " + CauseName(a.cause), "Effect: " + EffectName(a.effect)]
      + PeriodSection(a) + AffectedLines(a)
  }

  /** The kinds of display line, one per label. */
  datatype Section = IdLine | HeaderLine | DescriptionLine | UrlLine | CauseLine | EffectLine
                   | PeriodsHeading | PeriodEntry | AffectedLine

  /** The fixed text each kind of display line starts with. */
  function LabelOf(x: Section): (r: string)
    ensures |r| >= 2
  {
    match x
    case IdLine => "Alert ID: "
    case HeaderLine => "Header: "
    case DescriptionLine => "Description: "
    case UrlLine => "URL: "
    case CauseLine => "Cause: "
    case EffectLine => "Effect: "
    case PeriodsHeading => "Active Periods:"
    case PeriodEntry => "  From: "
    case AffectedLine => "Affected: "
  }

  /** No two labels share their first two characters, so a line shows at most one of them. */
  lemma LabelsDiffer(x: Section, y: Section)
    requires LabelOf(x)[0] == LabelOf(y)[0] && LabelOf(x)[1] == LabelOf(y)[1]
    ensures x == y
  {
  }

  /** The kinds of the display lines of `a`, in order. */
  function Sections(a: AlertData): seq<Section>
  {
    [IdLine, HeaderLine]
      + (if a.descriptionText != "" then [DescriptionLine] else [])
      + (if a.url != "" then [UrlLine] else [])
      + [CauseLine, EffectLine]
      + (if a.activePeriod != [] then [PeriodsHeading] + seq(|a.activePeriod|, _ => PeriodEntry) else [])
      + (if AffectedItems(a.informedEntity) != [] then [AffectedLine] else [])
  }

  /** Line `k` of `lines` starts with the label of section `k`, for every `k`. */
  predicate Labelled(lines: seq<string>, secs: seq<Section>)
  {
    |lines| == |secs| && forall k :: 0 <= k < |lines| ==> StartsWith(lines[k], LabelOf(secs[k]))
  }

  lemma LabelledConcat(l1: seq<string>, s1: seq<Section>, l2: seq<string>, s2: seq<Section>)
    requires Labelled(l1, s1) && Labelled(l2, s2)
    ensures Labelled(l1 + l2, s1 + s2)
  {
    forall k | 0 <= k < |l1 + l2| ensures StartsWith((l1 + l2)[k], LabelOf((s1 + s2)[k])) {
      if k >= |l1| {
        assert (l1 + l2)[k] == l2[k - |l1|] && (s1 + s2)[k] == s2[k - |s1|];
      }
    }
  }

  /** A label followed by anything starts with that label. */
  lemma LabelPrefix(tag: string, rest: string)
    ensures StartsWith(tag + rest, tag)
  {
    assert (tag + rest)[..|tag|] == tag;
  }

  /** Text appended after a prefix keeps it. */
  lemma PrefixExtends(s: string, tag: string, rest: string)
    requires StartsWith(s, tag)
    ensures StartsWith(s + rest, tag)
  {
    assert (s + rest)[..|tag|] == s[..|tag|];
  }

  /** A line built with label `x` in front is labelled by `x`. */
  lemma LabelledLine(x: Section, rest: string)
    ensures Labelled([LabelOf(x) + rest], [x])
  {
    LabelPrefix(LabelOf(x), rest);
  }

  lemma PeriodLineLabelled(p: map<string, string>)
    ensures StartsWith(PeriodLine(p), LabelOf(PeriodEntry))
  {
    var from, to := Get(p, "start", "Not specified"), Get(p, "end", "Not specified");
    LabelPrefix("  From: ", from);
    PrefixExtends("  From: " + from, "  From: ", " To: ");
    PrefixExtends("  From: " + from + " To: ", "  From: ", to);
  }

  /** Every line of the period block starts with "  From: ". */
  lemma {:induction false} PeriodLinesLabelled(ps: seq<map<string, string>>)
    ensures Labelled(PeriodLines(ps), seq(|ps|, _ => PeriodEntry))
    decreases |ps|
  {
    if ps != [] {
      var init := ps[..|ps| - 1];
      PeriodLinesLabelled(init);
      PeriodLineLabelled(ps[|ps| - 1]);
      assert Labelled([PeriodLine(ps[|ps| - 1])], [PeriodEntry]);
      LabelledConcat(PeriodLines(init), seq(|init|, _ => PeriodEntry), [PeriodLine(ps[|ps| - 1])], [PeriodEntry]);
      assert seq(|init|, _ => PeriodEntry) + [PeriodEntry] == seq(|ps|, _ => PeriodEntry);
    }
  }

  /** Every display line starts with the label of its section: ID, Header, Description?, URL?, Cause, Effect, Periods?, Affected?. */
  lemma DisplayLabelled(a: AlertData)
    ensures Labelled(DisplayLines(a), Sections(a))
  {
    var l1, s1 := ["Alert ID: " + a.id, "Header: " + a.headerText], [IdLine, HeaderLine];
    LabelledLine(IdLine, a.id);
    LabelledLine(HeaderLine, a.headerText);
    LabelledConcat(["Alert ID: " + a.id], [IdLine], ["Header: " + a.headerText], [HeaderLine]);
    var s2 := if a.descriptionText != "" then [DescriptionLine] else [];
    LabelledLine(DescriptionLine, a.descriptionText);
    LabelledConcat(l1, s1, DescriptionLines(a), s2);
    var s3 := if a.url != "" then [UrlLine] else [];
    LabelledLine(UrlLine, a.url);
    LabelledConcat(l1 + DescriptionLines(a), s1 + s2, UrlLines(a), s3);
    var l4, s4 := ["Cause: " + CauseName(a.cause), "Effect: " + EffectName(a.effect)], [CauseLine, EffectLine];
    LabelledLine(CauseLine, CauseName(a.cause));
    LabelledLine(EffectLine, EffectName(a.effect));
    LabelledConcat(["Cause: " + CauseName(a.cause)], [CauseLine], ["Effect: " + EffectName(a.effect)], [EffectLine]);
    LabelledConcat(l1 + DescriptionLines(a) + UrlLines(a), s1 + s2 + s3, l4, s4);
    var ps := a.activePeriod;
    var s5 := if ps != [] then [PeriodsHeading] + seq(|ps|, _ => PeriodEntry) else [];
    if ps != [] {
      PeriodLinesLabelled(ps);
      LabelledLine(PeriodsHeading, "");
      assert "Active Periods:" + "" == "Active Periods:";
      LabelledConcat(["Active Periods:"], [PeriodsHeading], PeriodLines(ps), seq(|ps|, _ => PeriodEntry));
    }
    LabelledConcat(l1 + DescriptionLines(a) + UrlLines(a) + l4, s1 + s2 + s3 + s4, PeriodSection(a), s5);
    var s6 := if AffectedItems(a.informedEntity) != [] then [AffectedLine] else [];
    LabelledLine(AffectedLine, Join(", ", AffectedItems(a.informedEntity)));
    LabelledConcat(l1 + DescriptionLines(a) + UrlLines(a) + l4 + PeriodSection(a), s1 + s2 + s3 + s4 + s5, AffectedLines(a), s6);
  }

  /** In a labelled list, some line starts with the label of `x` exactly when `x` is one of its sections. */
  lemma ShownIffSection(lines: seq<string>, secs: seq<Section>, x: Section)
    requires Labelled(lines, secs)
    ensures (exists k :: 0 <= k < |lines| && StartsWith(lines[k], LabelOf(x))) <==> x in secs
  {
    if k :| 0 <= k < |lines| && StartsWith(lines[k], LabelOf(x)) {
      var line, l, m := lines[k], LabelOf(secs[k]), LabelOf(x);
      assert line[0] == l[0] && line[1] == l[1] by { assert line[..|l|] == l; }
      assert line[0] == m[0] && line[1] == m[1] by { assert line[..|m|] == m; }
      LabelsDiffer(secs[k], x);
    }
    if x in secs {
      var k :| 0 <= k < |secs| && secs[k] == x;
      assert StartsWith(lines[k], LabelOf(x));
    }
  }

  /** Some display line starts with the label of `x` exactly when `x` is one of the sections of `a`. */
  lemma DisplayShows(a: AlertData, x: Section)
    ensures (exists k :: 0 <= k < |DisplayLines(a)| && StartsWith(DisplayLines(a)[k], LabelOf(x))) <==> x in Sections(a)
  {
    DisplayLabelled(a);
    ShownIffSection(DisplayLines(a), Sections(a), x);
  }

  /** The period block holds period entries only. */
  lemma EntriesOnly(n: nat, x: Section)
    requires x in seq(n, _ => PeriodEntry)
    ensures x == PeriodEntry
  {
  }

  lemma DescriptionSection(a: AlertData)
    ensures DescriptionLine in Sections(a) <==> a.descriptionText != ""
  {
    if DescriptionLine in Sections(a) && a.activePeriod != [] && DescriptionLine in seq(|a.activePeriod|, _ => PeriodEntry) {
      EntriesOnly(|a.activePeriod|, DescriptionLine);
    }
  }

  lemma UrlSection(a: AlertData)
    ensures UrlLine in Sections(a) <==> a.url != ""
  {
    if UrlLine in Sections(a) && a.activePeriod != [] && UrlLine in seq(|a.activePeriod|, _ => PeriodEntry) {
      EntriesOnly(|a.activePeriod|, UrlLine);
    }
  }

  lemma PeriodsSection(a: AlertData)
    ensures PeriodsHeading in Sections(a) <==> a.activePeriod != []
  {
    if PeriodsHeading in Sections(a) && a.activePeriod != [] && PeriodsHeading in seq(|a.activePeriod|, _ => PeriodEntry) {
      EntriesOnly(|a.activePeriod|, PeriodsHeading);
    }
  }

  lemma AffectedSection(a: AlertData)
    ensures AffectedLine in Sections(a) <==> AffectedItems(a.informedEntity) != []
  {
    if AffectedLine in Sections(a) && a.activePeriod != [] && AffectedLine in seq(|a.activePeriod|, _ => PeriodEntry) {
      EntriesOnly(|a.activePeriod|, AffectedLine);
    }
  }

  /** A display line starts with "Description: " exactly when the description is not empty. */
  lemma DescriptionShown(a: AlertData)
    ensures (exists k :: 0 <= k < |DisplayLines(a)| && StartsWith(DisplayLines(a)[k], "Description: ")) <==> a.descriptionText != ""
  {
    DisplayShows(a, DescriptionLine);
    DescriptionSection(a);
  }

  /** A display line starts with "URL: " exactly when the link is not empty. */
  lemma UrlShown(a: AlertData)
    ensures (exists k :: 0 <= k < |DisplayLines(a)| && StartsWith(DisplayLines(a)[k], "URL: ")) <==> a.url != ""
  {
    DisplayShows(a, UrlLine);
    UrlSection(a);
  }

  /** The "Active Periods:" heading is shown exactly when there are periods, and the block has one line per period after it. */
  lemma PeriodsShown(a: AlertData)
    ensures (exists k :: 0 <= k < |DisplayLines(a)| && StartsWith(DisplayLines(a)[k], "Active Periods:")) <==> a.activePeriod != []
    ensures |PeriodSection(a)| == if a.activePeriod == [] then 0 else |a.activePeriod| + 1
  {
    DisplayShows(a, PeriodsHeading);
    PeriodsSection(a);
  }

  /** The "Affected: " line is shown exactly when some entity record has a route or a stop. */
  lemma AffectedShown(a: AlertData)
    ensures (exists k :: 0 <= k < |DisplayLines(a)| && StartsWith(DisplayLines(a)[k], "Affected: ")) <==>
      exists i :: 0 <= i < |a.informedEntity| && ("route_id" in a.informedEntity[i] || "stop_id" in a.informedEntity[i])
  {
    DisplayShows(a, AffectedLine);
    AffectedSection(a);
    AffectedItemsEmpty(a.informedEntity);
  }

  /** The affected list is empty exactly when no entity record has a route or a stop. */
  lemma {:induction false} AffectedItemsEmpty(es: seq<map<string, string>>)
    ensures AffectedItems(es) == [] <==> forall i :: 0 <= i < |es| ==> "route_id" !in es[i] && "stop_id" !in es[i]
    decreases |es|
  {
    if es != [] {
      var init := es[..|es| - 1];
      assert forall i :: 0 <= i < |init| ==> init[i] == es[i];
      AffectedItemsEmpty(init);
    }
  }

  /** What a selector contributes to the affected list once recorded: its route, then its stop; an agency alone adds nothing. */
  lemma SelectorItems(e: EntitySelector)
    ensures EntityItems(EntityData(e)) ==
      (if e.routeId.Some? then ["Route " + e.routeId.value] else []) + (if e.stopId.Some? then ["Stop " + e.stopId.value] else [])
    ensures e.routeId.None? && e.stopId.None? ==> EntityItems(EntityData(e)) == []
  {
  }

  /** A recorded period whose start or end is missing shows "Not specified" in its place. */
  lemma PeriodLineOfRange(p: TimeRange)
    ensures PeriodLine(PeriodData(p)) ==
      "  From: " + p.start.GetOr("Not specified") + " To: " + p.end.GetOr("Not specified")
  {
  }

  /** The record of the basic formatter sample; its period times are shown as `str` of a `datetime` shows them. */
  const FullSample: AlertData := AlertData("test_alert_1", 3, 3, "https://example.com", "Test Alert", "Test Description",
    [map["start" := "2024-01-01 12:00:00", "end" := "2024-01-01 13:00:00"]],
    [map["route_id" := "501"], map["stop_id" := "1234"]])

  /** Every line of the full sample is shown, with the named cause and effect and the routes and stops in order. */
  lemma FullSampleLines()
    ensures DisplayLines(FullSample) == [
      "Alert ID: " + "test_alert_1", "Header: " + "Test Alert", "Description: " + "Test Description",
      "URL: " + "https://example.com", "Cause: " + "Technical Problem", "Effect: " + "Significant Delays",
      "Active Periods:", "  From: " + "2024-01-01 12:00:00" + " To: " + "2024-01-01 13:00:00",
      "Affected: " + (("Route " + "501") + ", " + ("Stop " + "1234"))]
  {
    SampleItems();
    SamplePeriod();
    assert CauseName(3) == "Technical Problem" by { assert 3 in CauseNames; }
    assert EffectName(3) == "Significant Delays" by { assert 3 in EffectNames; }
  }

  lemma SampleItems()
    ensures AffectedItems(FullSample.informedEntity) == ["Route " + "501", "Stop " + "1234"]
  {
    var e0, e1 := map["route_id" := "501"], map["stop_id" := "1234"];
    var es := FullSample.informedEntity;
    assert "stop_id" !in e0 && "route_id" !in e1 by { assert "stop_id"[0] != "route_id"[0]; }
    assert es[..1] == [e0] && es[..1][..0] == [];
    assert AffectedItems(es[..1]) == EntityItems(e0);
  }

  lemma SamplePeriod()
    ensures PeriodLines(FullSample.activePeriod) == ["  From: " + "2024-01-01 12:00:00" + " To: " + "2024-01-01 13:00:00"]
  {
    var p := map["start" := "2024-01-01 12:00:00", "end" := "2024-01-01 13:00:00"];
    var ps := FullSample.activePeriod;
    assert "start" != "end" by { assert "start"[0] != "end"[0]; }
    assert ps[..0] == [];
    assert PeriodLines(ps) == PeriodLines([]) + [PeriodLine(p)];
  }

  /** The minimal sample: an empty description, link, period list and entity list show no line at all. */
  lemma MinimalSampleLines()
    ensures DisplayLines(AlertData("test_alert_2", 1, 8, "", "Minimal Alert", "", [], [])) ==
      ["Alert ID: " + "test_alert_2", "Header: " + "Minimal Alert", "Cause: " + "Unknown", "Effect: " + "Unknown Effect"]
  {
    assert CauseName(1) == "Unknown" by { assert 1 in CauseNames; }
    assert EffectName(8) == "Unknown Effect" by { assert 8 in EffectNames; }
    CodesOnly(AlertData("test_alert_2", 1, 8, "", "Minimal Alert", "", [], []));
  }

  /** Codes outside both tables read as "Unknown". */
  lemma UnknownCodesSample()
    ensures DisplayLines(AlertData("test_alert_3", 999, 999, "", "Unknown Alert", "", [], [])) ==
      ["Alert ID: " + "test_alert_3", "Header: " + "Unknown Alert", "Cause: " + "Unknown", "Effect: " + "Unknown"]
  {
    CauseUnknown(999);
    EffectUnknown(999);
    CodesOnly(AlertData("test_alert_3", 999, 999, "", "Unknown Alert", "", [], []));
  }

  /** A record with nothing optional shows its ID, header, cause and effect only. */
  lemma CodesOnly(a: AlertData)
    requires a.descriptionText == "" && a.url == "" && a.activePeriod == [] && a.informedEntity == []
    ensures DisplayLines(a) ==
      ["Alert ID: " + a.id, "Header: " + a.headerText, "Cause: " + CauseName(a.cause), "Effect: " + EffectName(a.effect)]
  {
    assert AffectedItems(a.informedEntity) == [];
  }

  /** The cause and effect lines come right after the optional description and link lines, and name their codes. */
  lemma CodeLines(a: AlertData)
    ensures var n := |DescriptionLines(a)| + |UrlLines(a)|;
      |DisplayLines(a)| >= n + 4 &&
      DisplayLines(a)[0] == "Alert ID: " + a.id && DisplayLines(a)[1] == "Header: " + a.headerText &&
      DisplayLines(a)[n + 2] == "Cause: " + CauseName(a.cause) && DisplayLines(a)[n + 3] == "Effect: " + EffectName(a.effect)
  {
  }

  /** `format_alert`: the display lines joined by line breaks. */
  method FormatAlert(a: AlertData) returns (text: string)
    ensures text == Join("\n", DisplayLines(a))
  {
    var lines := ["Alert ID: " + a.id, "Header: " + a.headerText];
    if a.descriptionText != "" {
      lines := lines + ["Description: " + a.descriptionText];
    }
    assert lines == ["Alert ID: " + a.id, "Header: " + a.headerText] + DescriptionLines(a);
    ghost var head := lines;
    if a.url != "" {
      lines := lines + ["URL: " + a.url];
    }
    assert lines == head + UrlLines(a);
    lines := lines + ["Cause: " + CauseName(a.cause)];
    lines := lines + ["Effect: " + EffectName(a.effect)];
    assert lines == head + UrlLines(a) + ["Cause: " + CauseName(a.cause), "Effect: " + EffectName(a.effect)];
    ghost var codes := lines;
    if a.activePeriod != [] {
      lines := lines + ["Active Periods:"];
      var periodLines := PeriodBlock(a.activePeriod);
      lines := lines + periodLines;
    }
    assert lines == codes + PeriodSection(a);
    ghost var periods := lines;
    if a.informedEntity != [] {
      var affected := AffectedList(a.informedEntity);
      if affected != [] {
        lines := lines + ["Affected: " + Join(", ", affected)];
      }
    } else {
      assert AffectedItems(a.informedEntity) == [];
    }
    assert lines == periods + AffectedLines(a);
    text := Join("\n", lines);
  }

  /** The period loop of the display. */
  method PeriodBlock(ps: seq<map<string, string>>) returns (lines: seq<string>)
    ensures lines == PeriodLines(ps)
  {
    lines := [];
    for i := 0 to |ps|
      invariant lines == PeriodLines(ps[..i])
    {
      assert ps[..i + 1][..i] == ps[..i];
      var start := Get(ps[i], "start", "Not specified");
      var end := Get(ps[i], "end", "Not specified");
      lines := lines + ["  From: " + start + " To: " + end];
    }
    assert ps[..|ps|] == ps;
  }

  /** The affected-list loop of the display. */
  method AffectedList(es: seq<map<string, string>>) returns (affected: seq<string>)
    ensures affected == AffectedItems(es)
  {
    affected := [];
    for i := 0 to |es|
      invariant affected == AffectedItems(es[..i])
    {
      assert es[..i + 1][..i] == es[..i];
      if "route_id" in es[i] {
        affected := affected + ["Route " + es[i]["route_id"]];
      }
      if "stop_id" in es[i] {
        affected := affected + ["Stop " + es[i]["stop_id"]];
      }
    }
    assert es[..|es|] == es;
  }
}
