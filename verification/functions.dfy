/** The translation of a Garmin inReach MapShare KML feed into Cursor-on-Target
    events: splitting the feed into `Folder` blocks, and turning one block
    into an `event` element tree. The wall clock is the parameter `now`
    (seconds), and both the UTC timestamp formatting and
    `ElementTree.tostring` are function parameters. */
module Functions {
  import opened Wrappers
  import opened Xml
  import opened Strings
  import Constants

  /** The OGC KML 2.2 namespace every feed tag is qualified by. */
  const KmlNamespace: string := "http://www.opengis.net/kml/2.2"

  /** A tag in the KML namespace, in ElementTree's `{uri}local` form. */
  function Kml(local: string): string {
    "{" + KmlNamespace + "}" + local
  }

  /** The value written for every accuracy, elevation and course field:
      "unknown". */
  const Unknown: string := "9999999.0"

  const UidPrefix: string := "Garmin-inReach."
  const CallsignSuffix: string := " (inReach)"
  const RemarksPrefix: string := "Garmin inReach User.\r\n Name: "

  /** Why a translation raises instead of returning. */
  datatype Error =
    | NotFound(tag: string)   // attribute access on the `None` a missing child gives
    | NoText(tag: string)     // `split` on the `None` text of an element without text
    | Unpack(parts: nat)      // `lon, lat, alt = ...` on a split of the wrong length
    | NotAnInt(text: string)  // `int()` on a stale setting that is not a number
    | NotSerializable         // `tostring` on an attribute that holds `None`

  /** `split_feed` on a parsed document: the KML `Folder` children of the
      root's first KML `Document` child. Without a `Document` the source
      calls `findall` on `None`, which raises. */
  function SplitFeed(root: Element): Result<seq<Element>, Error> {
    match Find(root, Kml("Document"))
    case None => Err(NotFound(Kml("Document")))
    case Some(document) => Ok(FindAll(document, Kml("Folder")))
  }

  /** The fields read from one block: the three comma-separated coordinate
      components, and the texts of `name` and `TimeStamp/when`. */
  datatype Report = Report(lon: string, lat: string, alt: string, name: Option<string>, when: Option<string>)

  /** `e.find(kml:local)`, failing when an attribute of its `None` result
      would be used next. */
  function Child(e: Element, local: string): Result<Element, Error> {
    match Find(e, Kml(local))
    case Some(c) => Ok(c)
    case None => Err(NotFound(Kml(local)))
  }

  /** The element reached from `e` by taking, for each local name in turn,
      the first child with that KML tag. */
  function Path(e: Element, locals: seq<string>): Option<Element>
    decreases |locals|
  {
    if locals == [] then Some(e)
    else
      match Find(e, Kml(locals[0]))
      case None => None
      case Some(c) => Path(c, locals[1..])
  }

  /** The lookups and the coordinate split of `inreach_to_cot_xml`, in the
      order the source performs them. */
  function ReadReport(block: Element): Result<Report, Error> {
    var placemark :- Child(block, "Placemark");
    var point :- Child(placemark, "Point");
    var coordinates :- Child(point, "coordinates");
    var name :- Child(placemark, "name");
    var timestamp :- Child(placemark, "TimeStamp");
    var when :- Child(timestamp, "when");
    match coordinates.text
    case None => Err(NoText(Kml("coordinates")))
    case Some(text) =>
      var parts := Split(text, ',');
      if |parts| != 3 then Err(Unpack(|parts|))
      else Ok(Report(parts[0], parts[1], parts[2], name.text, when.text))
  }

  /** `int(feed_conf.get("cot_stale", 600))`. */
  function StaleSeconds(conf: map<string, string>): Result<int, Error> {
    if "cot_stale" in conf then
      match ParseInt(conf["cot_stale"])
      case Some(n) => Ok(n)
      case None => Err(NotAnInt(conf["cot_stale"]))
    else Ok(Constants.DefaultCotStale)
  }

  /** `feed_conf.get("cot_type", DEFAULT_COT_TYPE)`. */
  function CotType(conf: map<string, string>): string {
    if "cot_type" in conf then conf["cot_type"] else Constants.DefaultCotType
  }

  /** `feed_conf.get("cot_name") or _name`: an empty override counts as
      none. */
  function EffectiveName(conf: map<string, string>, reported: Option<string>): Option<string> {
    if "cot_name" in conf && conf["cot_name"] != "" then Some(conf["cot_name"]) else reported
  }

  /** How an f-string shows a value that is a string or `None`. */
  function Show(v: Option<string>): string {
    match v
    case Some(s) => s
    case None => "None"
  }

  /** The `event` tree built from a report, the feed's settings and the
      already formatted stale time. */
  function CotEvent(report: Report, conf: map<string, string>, stale: string): Element {
    var name := EffectiveName(conf, report.name);
    var remarks := RemarksPrefix + Show(name);
    var point := Element("point",
      map["lat" := Some(report.lat), "lon" := Some(report.lon),
          "hae" := Some(Unknown), "ce" := Some(Unknown), "le" := Some(Unknown)],
      None, []);
    var uid := Element("UID", map["Droid" := Some(Show(name) + CallsignSuffix)], None, []);
    var contact := Element("contact", map["callsign" := Some(Show(name) + CallsignSuffix)], None, []);
    var track := Element("track", map["course" := Some(Unknown)], None, []);
    var remarksElement := Element("remarks", map[], Some(remarks), []);
    var detail := Element("detail", map["uid" := name, "remarks" := Some(remarks)],
      None, [uid, contact, track, remarksElement]);
    Element("event",
      map["version" := Some("2.0"), "type" := Some(CotType(conf)),
          "uid" := Some(RemoveSpaces(UidPrefix + Show(name))), "how" := Some("m-g"),
          "time" := report.when, "start" := report.when, "stale" := Some(stale)],
      None, [point, detail])
  }

  /** `inreach_to_cot_xml(feed, feed_conf)` with the clock reading `now`; a
      `None` configuration is the empty map. */
  function InreachToCotXml(block: Element, conf: map<string, string>, now: int, isoUtc: int -> string): Result<Element, Error> {
    var report :- ReadReport(block);
    var seconds :- StaleSeconds(conf);
    Ok(CotEvent(report, conf, isoUtc(now + seconds)))
  }

  /** `inreach_to_cot`: the event tree serialized by `tostring`. */
  function InreachToCot(block: Element, conf: map<string, string>, now: int, isoUtc: int -> string, tostring: Element -> Bytes): Result<Bytes, Error> {
    var event :- InreachToCotXml(block, conf, now, isoUtc);
    if Serializable(event) then Ok(tostring(event)) else Err(NotSerializable)
  }
}

module FunctionsProofs {
  import opened Wrappers
  import opened Xml
  import opened Strings
  import opened Functions

  /** `split_feed` raises exactly when the root has no KML `Document` child. */
  lemma SplitFeedFailsIff(root: Element)
    ensures SplitFeed(root).Err? <==> forall i :: 0 <= i < |root.children| ==> root.children[i].tag != Kml("Document")
    ensures SplitFeed(root).Err? ==> SplitFeed(root).error == NotFound(Kml("Document"))
  {
    FindFirst(root, Kml("Document"));
  }

  /** With `document` the first KML `Document` child of the root, `split_feed`
      returns the KML `Folder` children of `document` and nothing else, in
      document order (possibly none). */
  lemma SplitFeedFolders(root: Element, before: seq<Element>, document: Element, after: seq<Element>)
    requires root.children == before + [document] + after
    requires document.tag == Kml("Document")
    requires forall c :: c in before ==> c.tag != Kml("Document")
    ensures SplitFeed(root).Ok?
    ensures SplitFeed(root).value == Tagged(document.children, Kml("Folder"))
    ensures forall f :: f in SplitFeed(root).value <==> f in document.children && f.tag == Kml("Folder")
  {
    var tag := Kml("Document");
    TaggedMembers(document.children, Kml("Folder"));
    TaggedNone(before, tag);
    TaggedAppend(before, [document] + after, tag);
    TaggedAppend([document], after, tag);
    assert root.children == before + ([document] + after);
    assert Tagged([document], tag) == [document];
    assert FindAll(root, tag) == [document] + Tagged(after, tag);
    assert Find(root, tag) == Some(document);
  }

  lemma TaggedNone(cs: seq<Element>, tag: string)
    requires forall c :: c in cs ==> c.tag != tag
    ensures Tagged(cs, tag) == []
  {
    TaggedMembers(cs, tag);
    if Tagged(cs, tag) != [] {
      assert Tagged(cs, tag)[0] in Tagged(cs, tag);
    }
  }

  /** The three element paths a report block is read along. */
  function CoordinatesPath(block: Element): Option<Element> {
    Path(block, ["Placemark", "Point", "coordinates"])
  }

  function NamePath(block: Element): Option<Element> {
    Path(block, ["Placemark", "name"])
  }

  function WhenPath(block: Element): Option<Element> {
    Path(block, ["Placemark", "TimeStamp", "when"])
  }

  lemma PathUnfold(e: Element, a: string, rest: seq<string>)
    ensures Path(e, [a] + rest) == match Find(e, Kml(a)) case None => None case Some(c) => Path(c, rest)
  {
    assert ([a] + rest)[0] == a && ([a] + rest)[1..] == rest;
  }

  lemma PathsUnfold(block: Element)
    ensures Find(block, Kml("Placemark")).None? ==> CoordinatesPath(block).None? && NamePath(block).None? && WhenPath(block).None?
    ensures Find(block, Kml("Placemark")).Some? ==>
      var placemark := Find(block, Kml("Placemark")).value;
      && CoordinatesPath(block) == Path(placemark, ["Point", "coordinates"])
      && NamePath(block) == Path(placemark, ["name"])
      && WhenPath(block) == Path(placemark, ["TimeStamp", "when"])
  {
    PathUnfold(block, "Placemark", ["Point", "coordinates"]);
    PathUnfold(block, "Placemark", ["name"]);
    PathUnfold(block, "Placemark", ["TimeStamp", "when"]);
    assert ["Placemark", "Point", "coordinates"] == ["Placemark"] + ["Point", "coordinates"];
    assert ["Placemark", "name"] == ["Placemark"] + ["name"];
    assert ["Placemark", "TimeStamp", "when"] == ["Placemark"] + ["TimeStamp", "when"];
    if Find(block, Kml("Placemark")).Some? {
      var placemark := Find(block, Kml("Placemark")).value;
      PathUnfold(placemark, "Point", ["coordinates"]);
      PathUnfold(placemark, "name", []);
      PathUnfold(placemark, "TimeStamp", ["when"]);
      assert ["Point", "coordinates"] == ["Point"] + ["coordinates"];
      assert ["name"] == ["name"] + [];
      assert ["TimeStamp", "when"] == ["TimeStamp"] + ["when"];
      var point := Find(placemark, Kml("Point"));
      if point.Some? {
        PathUnfold(point.value, "coordinates", []);
        assert ["coordinates"] == ["coordinates"] + [];
      }
      var timestamp := Find(placemark, Kml("TimeStamp"));
      if timestamp.Some? {
        PathUnfold(timestamp.value, "when", []);
        assert ["when"] == ["when"] + [];
      }
    }
  }

  /** The elements a block is read from, when they are all there. */
  datatype Parts = Parts(coordinates: Element, name: Element, when: Element)

  /** Follows the lookups of `ReadReport` one at a time. */
  lemma ReadReportSteps(block: Element) returns (found: Option<Parts>)
    ensures found.None? <==> CoordinatesPath(block).None? || NamePath(block).None? || WhenPath(block).None?
    ensures found.None? ==> ReadReport(block).Err? && ReadReport(block).error.NotFound?
    ensures found.Some? ==>
      && CoordinatesPath(block) == Some(found.value.coordinates)
      && NamePath(block) == Some(found.value.name)
      && WhenPath(block) == Some(found.value.when)
      && ReadReport(block) == match found.value.coordinates.text
         case None => Err(NoText(Kml("coordinates")))
         case Some(text) =>
           var parts := Split(text, ',');
           if |parts| != 3 then Err(Unpack(|parts|))
           else Ok(Report(parts[0], parts[1], parts[2], found.value.name.text, found.value.when.text))
  {
    PathsUnfold(block);
    var placemark := Find(block, Kml("Placemark"));
    if placemark.None? {
      return None;
    }
    var point := Find(placemark.value, Kml("Point"));
    if point.None? {
      return None;
    }
    var coordinates := Find(point.value, Kml("coordinates"));
    if coordinates.None? {
      return None;
    }
    var name := Find(placemark.value, Kml("name"));
    if name.None? {
      return None;
    }
    var timestamp := Find(placemark.value, Kml("TimeStamp"));
    if timestamp.None? {
      return None;
    }
    var when := Find(timestamp.value, Kml("when"));
    if when.None? {
      return None;
    }
    return Some(Parts(coordinates.value, name.value, when.value));
  }

  /** Reading a block succeeds exactly when the Placemark, Point,
      coordinates, name, TimeStamp and when elements are all there, the
      coordinates element has text, and that text has exactly two commas;
      a missing element is reported as such. */
  lemma ReadReportSucceedsIff(block: Element)
    ensures ReadReport(block).Ok? <==>
      && CoordinatesPath(block).Some? && NamePath(block).Some? && WhenPath(block).Some?
      && CoordinatesPath(block).value.text.Some?
      && Count(CoordinatesPath(block).value.text.value, ',') == 2
    ensures CoordinatesPath(block).None? || NamePath(block).None? || WhenPath(block).None? ==>
      ReadReport(block).Err? && ReadReport(block).error.NotFound?
  {
    var found := ReadReportSteps(block);
  }

  /** What a successful read returns: the texts of `name` and `when` as
      found. */
  lemma ReadReportTexts(block: Element)
    requires ReadReport(block).Ok?
    ensures NamePath(block).Some? && WhenPath(block).Some?
    ensures ReadReport(block).value.name == NamePath(block).value.text
    ensures ReadReport(block).value.when == WhenPath(block).value.text
  {
    var found := ReadReportSteps(block);
  }

  /** What a successful read returns: the coordinate text cut at its two
      commas into longitude, latitude and altitude, which joined with commas
      give the text back. */
  lemma ReadReportCoordinates(block: Element)
    requires ReadReport(block).Ok?
    ensures CoordinatesPath(block).Some? && CoordinatesPath(block).value.text.Some?
    ensures var r := ReadReport(block).value;
      && [r.lon, r.lat, r.alt] == Split(CoordinatesPath(block).value.text.value, ',')
      && Join([r.lon, r.lat, r.alt], ',') == CoordinatesPath(block).value.text.value
      && ',' !in r.lon && ',' !in r.lat && ',' !in r.alt
  {
    var found := ReadReportSteps(block);
    var text := CoordinatesPath(block).value.text.value;
    var parts := Split(text, ',');
    JoinSplit(text, ',');
    assert parts == [parts[0], parts[1], parts[2]];
    assert parts[0] in parts && parts[1] in parts && parts[2] in parts;
  }

  /** The point of an event tree and its attributes. */
  lemma PointOf(report: Report, conf: map<string, string>, stale: string)
    ensures var event := CotEvent(report, conf, stale);
      && Find(event, "point") == Some(event.children[0])
      && Attr(event.children[0], "lon") == Some(report.lon)
      && Attr(event.children[0], "lat") == Some(report.lat)
      && Attr(event.children[0], "hae") == Some(Unknown)
      && Attr(event.children[0], "ce") == Some(Unknown)
      && Attr(event.children[0], "le") == Some(Unknown)
  {
    FindAt(CotEvent(report, conf, stale), 0, "point");
  }

  /** The detail block of an event tree, its children and their attributes. */
  lemma DetailOf(report: Report, conf: map<string, string>, stale: string)
    ensures var event := CotEvent(report, conf, stale);
      var detail := event.children[1];
      var name := Show(EffectiveName(conf, report.name));
      && Find(event, "detail") == Some(detail)
      && Find(detail, "UID") == Some(detail.children[0])
      && Find(detail, "contact") == Some(detail.children[1])
      && Find(detail, "track") == Some(detail.children[2])
      && Find(detail, "remarks") == Some(detail.children[3])
      && Attr(detail.children[0], "Droid") == Some(name + CallsignSuffix)
      && Attr(detail.children[1], "callsign") == Some(name + CallsignSuffix)
      && Attr(detail.children[2], "course") == Some(Unknown)
      && detail.children[3].text == Some(RemarksPrefix + name)
      && Attr(detail, "remarks") == Some(RemarksPrefix + name)
  {
    var event := CotEvent(report, conf, stale);
    FindAt(event, 1, "detail");
    var detail := event.children[1];
    FindAt(detail, 0, "UID");
    FindAt(detail, 1, "contact");
    FindAt(detail, 2, "track");
    FindAt(detail, 3, "remarks");
  }

  /** The attributes of the `event` element itself. */
  lemma EventAttrsOf(report: Report, conf: map<string, string>, stale: string)
    ensures var event := CotEvent(report, conf, stale);
      var name := Show(EffectiveName(conf, report.name));
      && event.tag == "event"
      && Attr(event, "version") == Some("2.0")
      && Attr(event, "type") == Some(CotType(conf))
      && Attr(event, "uid") == Some(RemoveSpaces(UidPrefix + name))
      && Attr(event, "how") == Some("m-g")
      && Attr(event, "time") == report.when
      && Attr(event, "start") == report.when
      && Attr(event, "stale") == Some(stale)
  {
  }

  /** The report and stale seconds a successful translation is built from. */
  lemma TranslationParts(block: Element, conf: map<string, string>, now: int, isoUtc: int -> string)
    returns (report: Report, seconds: int)
    requires InreachToCotXml(block, conf, now, isoUtc).Ok?
    ensures ReadReport(block) == Ok(report) && StaleSeconds(conf) == Ok(seconds)
    ensures InreachToCotXml(block, conf, now, isoUtc).value == CotEvent(report, conf, isoUtc(now + seconds))
  {
    report := ReadReport(block).value;
    seconds := StaleSeconds(conf).value;
  }

  /** Translation returns an event exactly when the block can be read (the
      six elements are there and the coordinate text has exactly two commas)
      and the stale setting, if any, is a number; whenever it returns, what
      it returns is an `event` element, never `None`. */
  lemma TranslateSucceedsIff(block: Element, conf: map<string, string>, now: int, isoUtc: int -> string)
    ensures InreachToCotXml(block, conf, now, isoUtc).Ok? <==>
      && CoordinatesPath(block).Some? && NamePath(block).Some? && WhenPath(block).Some?
      && CoordinatesPath(block).value.text.Some?
      && Count(CoordinatesPath(block).value.text.value, ',') == 2
      && ("cot_stale" in conf ==> ParseInt(conf["cot_stale"]).Some?)
    ensures InreachToCotXml(block, conf, now, isoUtc).Ok? ==>
      InreachToCotXml(block, conf, now, isoUtc).value.tag == "event"
  {
    ReadReportSucceedsIff(block);
  }

  /** The event's point carries the first two coordinate components, as
      text, as longitude and latitude, and "unknown" for hae, ce and le. */
  lemma EventPoint(block: Element, conf: map<string, string>, now: int, isoUtc: int -> string)
    requires InreachToCotXml(block, conf, now, isoUtc).Ok?
    ensures CoordinatesPath(block).Some? && CoordinatesPath(block).value.text.Some?
    ensures var event := InreachToCotXml(block, conf, now, isoUtc).value;
      var parts := Split(CoordinatesPath(block).value.text.value, ',');
      && |parts| == 3
      && Find(event, "point").Some?
      && var point := Find(event, "point").value;
         && Attr(point, "lon") == Some(parts[0])
         && Attr(point, "lat") == Some(parts[1])
         && Attr(point, "hae") == Some(Unknown)
         && Attr(point, "ce") == Some(Unknown)
         && Attr(point, "le") == Some(Unknown)
  {
    var report, seconds := TranslationParts(block, conf, now, isoUtc);
    ReadReportCoordinates(block);
    PointOf(report, conf, isoUtc(now + seconds));
  }

  /** The name shown in an event: the feed's non-empty `cot_name`, else the
      text of the report's `name` element as an f-string shows it. */
  function ShownName(block: Element, conf: map<string, string>): string
    requires NamePath(block).Some?
  {
    if "cot_name" in conf && conf["cot_name"] != "" then conf["cot_name"]
    else Show(NamePath(block).value.text)
  }

  /** The identifying strings of an event: the uid is the provider prefix
      followed by the name without its spaces; the contact callsign and the
      `UID` element's Droid are the name with the " (inReach)" suffix; the
      remarks, both as a detail attribute and as the `remarks` text, are the
      boilerplate line followed by the name. */
  lemma EventNames(block: Element, conf: map<string, string>, now: int, isoUtc: int -> string)
    requires InreachToCotXml(block, conf, now, isoUtc).Ok?
    ensures NamePath(block).Some?
    ensures var event := InreachToCotXml(block, conf, now, isoUtc).value;
      var name := ShownName(block, conf);
      && Attr(event, "uid") == Some("Garmin-inReach." + RemoveSpaces(name))
      && Find(event, "detail").Some?
      && var detail := Find(event, "detail").value;
         && Find(detail, "contact").Some?
         && Attr(Find(detail, "contact").value, "callsign") == Some(name + " (inReach)")
         && Find(detail, "UID").Some?
         && Attr(Find(detail, "UID").value, "Droid") == Some(name + " (inReach)")
         && Attr(detail, "remarks") == Some("Garmin inReach User.\r\n Name: " + name)
         && Find(detail, "remarks").Some?
         && Find(detail, "remarks").value.text == Some("Garmin inReach User.\r\n Name: " + name)
  {
    var report, seconds := TranslationParts(block, conf, now, isoUtc);
    ReadReportTexts(block);
    DetailOf(report, conf, isoUtc(now + seconds));
    EventAttrsOf(report, conf, isoUtc(now + seconds));
    var name := ShownName(block, conf);
    assert Show(EffectiveName(conf, report.name)) == name;
    UidOfName(name);
  }

  /** The provider prefix has no spaces, so only the name loses its own. */
  lemma UidOfName(name: string)
    ensures RemoveSpaces(UidPrefix + name) == "Garmin-inReach." + RemoveSpaces(name)
  {
    assert ' ' !in UidPrefix;
    RemoveSpacesAfter(UidPrefix, name);
  }

  /** The event's time and start are the report's `when` text unchanged;
      its stale time is the clock reading plus the configured stale seconds
      (600 by default), whatever the report's own timestamp. */
  lemma EventTimes(block: Element, conf: map<string, string>, now: int, isoUtc: int -> string)
    requires InreachToCotXml(block, conf, now, isoUtc).Ok?
    ensures WhenPath(block).Some?
    ensures "cot_stale" in conf ==> ParseInt(conf["cot_stale"]).Some?
    ensures var event := InreachToCotXml(block, conf, now, isoUtc).value;
      && Attr(event, "time") == WhenPath(block).value.text
      && Attr(event, "start") == WhenPath(block).value.text
      && Attr(event, "stale") == Some(isoUtc(now +
           if "cot_stale" in conf then ParseInt(conf["cot_stale"]).value else 600))
  {
    var report, seconds := TranslationParts(block, conf, now, isoUtc);
    ReadReportTexts(block);
    EventAttrsOf(report, conf, isoUtc(now + seconds));
  }

  /** The fixed fields: version "2.0", how "m-g", the feed's `cot_type` or
      the default type, and an "unknown" course. */
  lemma EventFixedFields(block: Element, conf: map<string, string>, now: int, isoUtc: int -> string)
    requires InreachToCotXml(block, conf, now, isoUtc).Ok?
    ensures var event := InreachToCotXml(block, conf, now, isoUtc).value;
      && Attr(event, "version") == Some("2.0")
      && Attr(event, "how") == Some("m-g")
      && Attr(event, "type") == Some(if "cot_type" in conf then conf["cot_type"] else "a-.-G-E-V-C")
      && Find(event, "detail").Some?
      && Find(Find(event, "detail").value, "track").Some?
      && Attr(Find(Find(event, "detail").value, "track").value, "course") == Some("9999999.0")
  {
    var report, seconds := TranslationParts(block, conf, now, isoUtc);
    DetailOf(report, conf, isoUtc(now + seconds));
    EventAttrsOf(report, conf, isoUtc(now + seconds));
  }

  /** An event tree can be serialized exactly when it has a name and a
      timestamp text to put in its attributes. */
  lemma CotEventSerializable(report: Report, conf: map<string, string>, stale: string)
    ensures Serializable(CotEvent(report, conf, stale)) <==>
      EffectiveName(conf, report.name).Some? && report.when.Some?
  {
    var event := CotEvent(report, conf, stale);
    var point, detail := event.children[0], event.children[1];
    assert forall k :: k in point.attrib ==> point.attrib[k].Some?;
    assert Serializable(point);
    forall c | c in detail.children ensures Serializable(c) {
      assert forall k :: k in c.attrib ==> c.attrib[k].Some?;
    }
    if !Serializable(event) {
      if EffectiveName(conf, report.name).Some? && report.when.Some? {
        assert Serializable(detail);
        assert forall c :: c in event.children ==> Serializable(c);
      }
    } else {
      assert detail in event.children;
      assert "uid" in detail.attrib;
      assert "time" in event.attrib;
    }
  }

  /** `inreach_to_cot` returns the serialized event exactly when the
      translation succeeds with a name (an override or a `name` text) and a
      `when` text; otherwise `tostring` raises on the `None` attribute. */
  lemma InreachToCotSucceedsIff(block: Element, conf: map<string, string>, now: int, isoUtc: int -> string, tostring: Element -> Bytes)
    ensures InreachToCot(block, conf, now, isoUtc, tostring).Ok? <==>
      && InreachToCotXml(block, conf, now, isoUtc).Ok?
      && (("cot_name" in conf && conf["cot_name"] != "") || NamePath(block).value.text.Some?)
      && WhenPath(block).value.text.Some?
    ensures InreachToCot(block, conf, now, isoUtc, tostring).Ok? ==>
      InreachToCot(block, conf, now, isoUtc, tostring).value == tostring(InreachToCotXml(block, conf, now, isoUtc).value)
  {
    if InreachToCotXml(block, conf, now, isoUtc).Ok? {
      var report, seconds := TranslationParts(block, conf, now, isoUtc);
      ReadReportTexts(block);
      CotEventSerializable(report, conf, isoUtc(now + seconds));
    }
  }

  /** An element with only a tag and a text. */
  function Leaf(tag: string, text: string): Element {
    Element(tag, map[], Some(text), [])
  }

  /** A MapShare block holding one placemark with the given name,
      coordinate text and timestamp. */
  function MapShareBlock(name: string, coordinates: string, when: string): Element {
    Element(Kml("Folder"), map[], None, [
      Element(Kml("Placemark"), map[], None, [
        Leaf(Kml("name"), name),
        Element(Kml("TimeStamp"), map[], None, [Leaf(Kml("when"), when)]),
        Element(Kml("Point"), map[], None, [Leaf(Kml("coordinates"), coordinates)])
      ])
    ])
  }

  lemma MapShareBlockPaths(name: string, coordinates: string, when: string)
    ensures CoordinatesPath(MapShareBlock(name, coordinates, when)) == Some(Leaf(Kml("coordinates"), coordinates))
    ensures NamePath(MapShareBlock(name, coordinates, when)) == Some(Leaf(Kml("name"), name))
    ensures WhenPath(MapShareBlock(name, coordinates, when)) == Some(Leaf(Kml("when"), when))
  {
    var block := MapShareBlock(name, coordinates, when);
    var placemark := block.children[0];
    FindAt(block, 0, Kml("Placemark"));
    FindAt(placemark, 0, Kml("name"));
    FindAt(placemark, 1, Kml("TimeStamp"));
    FindAt(placemark, 2, Kml("Point"));
    FindAt(placemark.children[1], 0, Kml("when"));
    FindAt(placemark.children[2], 0, Kml("coordinates"));
    PathsUnfold(block);
    PathUnfold(placemark, "Point", ["coordinates"]);
    PathUnfold(placemark.children[2], "coordinates", []);
    PathUnfold(placemark, "name", []);
    PathUnfold(placemark, "TimeStamp", ["when"]);
    PathUnfold(placemark.children[1], "when", []);
    assert ["Point", "coordinates"] == ["Point"] + ["coordinates"];
    assert ["coordinates"] == ["coordinates"] + [];
    assert ["name"] == ["name"] + [];
    assert ["TimeStamp", "when"] == ["TimeStamp"] + ["when"];
    assert ["when"] == ["when"] + [];
  }

  /** Reading back a block written from a name, three comma-free coordinate
      components and a timestamp gives exactly those values. */
  lemma MapShareRoundTrip(name: string, lon: string, lat: string, alt: string, when: string)
    requires ',' !in lon && ',' !in lat && ',' !in alt
    ensures ReadReport(MapShareBlock(name, Join([lon, lat, alt], ','), when)) ==
      Ok(Report(lon, lat, alt, Some(name), Some(when)))
  {
    var coordinates := Join([lon, lat, alt], ',');
    MapShareBlockPaths(name, coordinates, when);
    SplitJoin([lon, lat, alt], ',');
    var found := ReadReportSteps(MapShareBlock(name, coordinates, when));
  }

  /** With no feed settings, a block for a placemark named by two
      space-free words (as "Greg Albrecht") becomes an event of the default
      type whose uid is the prefix and the two words run together, whose
      point carries the longitude and latitude given, and whose callsign is
      the name with the " (inReach)" suffix. */
  lemma TwoWordTranslation(first: string, last: string, lon: string, lat: string, alt: string, when: string, now: int, isoUtc: int -> string)
    requires ' ' !in first && ' ' !in last
    requires ',' !in lon && ',' !in lat && ',' !in alt
    ensures var block := MapShareBlock(first + " " + last, Join([lon, lat, alt], ','), when);
      && InreachToCotXml(block, map[], now, isoUtc).Ok?
      && var event := InreachToCotXml(block, map[], now, isoUtc).value;
         && Find(event, "point").Some? && Find(event, "detail").Some?
         && Find(Find(event, "detail").value, "contact").Some?
         && Attr(event, "type") == Some("a-.-G-E-V-C")
         && Attr(event, "uid") == Some("Garmin-inReach." + first + last)
         && Attr(Find(event, "point").value, "lat") == Some(lat)
         && Attr(Find(event, "point").value, "lon") == Some(lon)
         && Attr(Find(Find(event, "detail").value, "contact").value, "callsign") == Some(first + " " + last + " (inReach)")
         && Attr(event, "time") == Some(when)
         && Attr(event, "stale") == Some(isoUtc(now + 600))
  {
    var name := first + " " + last;
    var block := MapShareBlock(name, Join([lon, lat, alt], ','), when);
    MapShareRoundTrip(name, lon, lat, alt, when);
    var report := Report(lon, lat, alt, Some(name), Some(when));
    assert StaleSeconds(map[]) == Ok(600);
    assert InreachToCotXml(block, map[], now, isoUtc) == Ok(CotEvent(report, map[], isoUtc(now + 600)));
    PointOf(report, map[], isoUtc(now + 600));
    DetailOf(report, map[], isoUtc(now + 600));
    EventAttrsOf(report, map[], isoUtc(now + 600));
    UidOfName(name);
    OneSpaceRemoved(first, last);
    assert UidPrefix + (first + last) == "Garmin-inReach." + first + last;
  }
}
