/** The worker of `inrcot/classes.py`: the feed registry built from the
    configuration, the poll interval, and one polling pass over the feeds
    that appends rendered events to the queue. HTTP is an outcome per feed
    and the renderer is a function parameter. */
module Classes {
  import opened Wrappers
  import opened Xml
  import opened Strings
  import Constants
  import Functions

  /** A parsed configuration: its section names in file order and the
      options of each section. Option names are the folded (lower-case)
      names configparser stores; a section without an entry in `options`
      has no options. */
  datatype Config = Config(sections: seq<string>, options: map<string, map<string, string>>)

  function SectionOptions(c: Config, section: string): map<string, string> {
    if section in c.options then c.options[section] else map[]
  }

  /** `section.get(key)`: the value, or `None` when the option is absent. */
  function Get(opts: map<string, string>, key: string): Option<string> {
    if key in opts then Some(opts[key]) else None
  }

  /** A feed setting that is the text read from the file or the integer
      default the worker puts in its place. */
  datatype Setting = Text(text: string) | Number(n: int)

  /** One entry of `inreach_feeds`. */
  datatype Feed = Feed(feedUrl: Option<string>, cotStale: Setting, cotType: string,
                       cotIcon: Option<string>, cotName: Option<string>)

  /** The entry built from one feed section's options. */
  function MakeFeed(opts: map<string, string>): Feed {
    Feed(Get(opts, "feed_url"),
         if "cot_stale" in opts then Text(opts["cot_stale"]) else Number(Constants.DefaultCotStale),
         if "cot_type" in opts then opts["cot_type"] else Constants.DefaultCotType,
         Get(opts, "cot_icon"),
         Get(opts, "cot_name"))
  }

  /** The marker that makes a section a feed section. */
  const FeedMarker: string := "inrcot_feed_"

  /** `FeedMarker in name`: the marker may occur anywhere in the name. */
  predicate IsFeedSection(name: string) {
    Contains(name, FeedMarker)
  }

  /** The names among `names` that contain `marker`, in their order. */
  function SectionsWith(names: seq<string>, marker: string): (r: seq<string>)
    ensures |r| <= |names|
  {
    if names == [] then []
    else
      var front := SectionsWith(names[..|names| - 1], marker);
      var last := names[|names| - 1];
      if Contains(last, marker) then front + [last] else front
  }

  /** The feed sections among `names`, in their order. */
  function FeedSections(names: seq<string>): seq<string> {
    SectionsWith(names, FeedMarker)
  }

  /** A name is kept exactly when it is in the list and contains the
      marker. */
  lemma {:induction false} SectionsWithMembers(names: seq<string>, marker: string)
    ensures forall n :: n in SectionsWith(names, marker) <==> n in names && Contains(n, marker)
  {
    if names != [] {
      var front := names[..|names| - 1];
      SectionsWithMembers(front, marker);
      assert names == front + [names[|names| - 1]];
    }
  }

  /** The feed sections are the listed names that are feed sections. */
  lemma FeedSectionsMembers(names: seq<string>)
    ensures forall n :: n in FeedSections(names) <==> n in names && IsFeedSection(n)
  {
    SectionsWithMembers(names, FeedMarker);
  }

  /** Taking in one more name keeps it when it contains the marker. */
  lemma SectionsWithStep(names: seq<string>, i: nat, marker: string)
    requires i < |names|
    ensures SectionsWith(names[..i + 1], marker)
      == SectionsWith(names[..i], marker) + (if Contains(names[i], marker) then [names[i]] else [])
  {
    assert names[..i + 1][..i] == names[..i];
  }

  /** Filtering two lists one after the other gives the results one after
      the other: filtering keeps the order. */
  lemma {:induction false} SectionsWithAppend(a: seq<string>, b: seq<string>, marker: string)
    ensures SectionsWith(a + b, marker) == SectionsWith(a, marker) + SectionsWith(b, marker)
    decreases |b|
  {
    if b == [] {
      assert a + b == a;
    } else {
      var b' := b[..|b| - 1];
      var last := b[|b| - 1];
      var ab := a + b;
      SectionsWithAppend(a, b', marker);
      assert ab[..|ab| - 1] == a + b';
      assert ab[|ab| - 1] == last;
      if Contains(last, marker) {
        assert SectionsWith(ab, marker) == SectionsWith(a + b', marker) + [last];
        assert SectionsWith(b, marker) == SectionsWith(b', marker) + [last];
      } else {
        assert SectionsWith(ab, marker) == SectionsWith(a + b', marker);
        assert SectionsWith(b, marker) == SectionsWith(b', marker);
      }
    }
  }

  /** One entry per section named in `names`, in order. */
  function MakeFeeds(c: Config, names: seq<string>): (r: seq<Feed>)
    ensures |r| == |names|
    ensures forall i :: 0 <= i < |names| ==> r[i] == MakeFeed(SectionOptions(c, names[i]))
  {
    if names == [] then []
    else MakeFeeds(c, names[..|names| - 1]) + [MakeFeed(SectionOptions(c, names[|names| - 1]))]
  }

  /** The feed list `__init__` builds from a configuration. */
  function Registry(c: Config): seq<Feed> {
    MakeFeeds(c, FeedSections(c.sections))
  }

  /** Why `__init__` raises. */
  datatype InitError = MissingSection(section: string) | NotAnInteger(text: string)

  /** `int(config["inrcot"].get("POLL_INTERVAL", 120))`. */
  function PollInterval(c: Config): Result<int, InitError> {
    if "inrcot" !in c.sections then Err(MissingSection("inrcot"))
    else
      var opts := SectionOptions(c, "inrcot");
      if "poll_interval" in opts then
        match ParseInt(opts["poll_interval"])
        case Some(n) => Ok(n)
        case None => Err(NotAnInteger(opts["poll_interval"]))
      else Ok(Constants.DefaultPollInterval)
  }

  /** `m` with `key` set to the value of `v`, unless `v` is `None`. */
  function With(m: map<string, string>, key: string, v: Option<string>): map<string, string> {
    if v.Some? then m[key := v.value] else m
  }

  function SettingText(s: Setting): string {
    match s
    case Text(t) => t
    case Number(n) => IntToString(n)
  }

  /** A feed entry as the translator's configuration: a `None` entry is an
      absent key, and an integer is its decimal text. */
  function FeedDict(f: Feed): map<string, string> {
    var base := map["cot_stale" := SettingText(f.cotStale), "cot_type" := f.cotType];
    With(With(With(base, "feed_url", f.feedUrl), "cot_icon", f.cotIcon), "cot_name", f.cotName)
  }

  /** The result of one HTTP request. */
  datatype HttpOutcome = TransportError | Response(status: int, body: Bytes)

  /** What the renderer does with a body: returns an event, or raises. */
  datatype Rendered = Event(bytes: Bytes) | RenderFailed

  /** How a pass ended: all feeds visited, or stopped at a feed. */
  datatype PassEnd = Completed | TransportFailed(feed: nat) | RendererRaised(feed: nat)

  /** The events a pass has enqueued, how many feeds it has requested, and
      how it ended. */
  datatype PassResult = PassResult(events: seq<Bytes>, polled: nat, end: PassEnd)

  /** The events `handle_response` enqueues for what the renderer gave:
      the event when it is non-empty. */
  function Enqueued(r: Rendered): seq<Bytes> {
    if r.Event? && r.bytes != [] then [r.bytes] else []
  }

  /** Polling feed `i` after the pass has got this far. */
  function Step(r: PassResult, i: nat, feed: Feed, outcome: HttpOutcome, render: (Bytes, Feed) -> Rendered): PassResult {
    match outcome
    case TransportError => PassResult(r.events, r.polled + 1, TransportFailed(i))
    case Response(status, body) =>
      if status != 200 then PassResult(r.events, r.polled + 1, Completed)
      else
        var rendered := render(body, feed);
        if rendered.RenderFailed? then PassResult(r.events, r.polled + 1, RendererRaised(i))
        else PassResult(r.events + Enqueued(rendered), r.polled + 1, Completed)
  }

  /** The pass over the first `n` feeds, the outcome of feed `i` being
      `outcomes[i]`; once stopped, later feeds change nothing. */
  function PassOver(feeds: seq<Feed>, outcomes: seq<HttpOutcome>, render: (Bytes, Feed) -> Rendered, n: nat): (r: PassResult)
    requires n <= |feeds| && n <= |outcomes|
    ensures r.polled <= n && |r.events| <= r.polled
    ensures r.end.Completed? ==> r.polled == n
    ensures !r.end.Completed? ==> r.end.feed + 1 == r.polled
  {
    if n == 0 then PassResult([], 0, Completed)
    else
      var prev := PassOver(feeds, outcomes, render, n - 1);
      if !prev.end.Completed? then prev
      else Step(prev, n - 1, feeds[n - 1], outcomes[n - 1], render)
  }

  /** Feed `feed` with outcome `outcome` stops the pass. */
  predicate Halts(feed: Feed, outcome: HttpOutcome, render: (Bytes, Feed) -> Rendered) {
    outcome.TransportError? || (outcome.status == 200 && render(outcome.body, feed).RenderFailed?)
  }

  /** The events feed `feed` contributes when the pass reaches it. */
  function Contribution(feed: Feed, outcome: HttpOutcome, render: (Bytes, Feed) -> Rendered): seq<Bytes> {
    if outcome.Response? && outcome.status == 200 then Enqueued(render(outcome.body, feed)) else []
  }

  /** The contributions of all feeds, in feed order. */
  function Emitted(feeds: seq<Feed>, outcomes: seq<HttpOutcome>, render: (Bytes, Feed) -> Rendered): (r: seq<Bytes>)
    requires |feeds| == |outcomes|
    ensures |r| <= |feeds|
  {
    if feeds == [] then []
    else Contribution(feeds[0], outcomes[0], render) + Emitted(feeds[1..], outcomes[1..], render)
  }

  /** The worker: the poll interval, the feed list and the event queue. */
  class InrWorker {
    var pollInterval: int
    var inreachFeeds: seq<Feed>
    var eventQueue: seq<Bytes>

    /** `__init__`: reads the poll interval and appends one entry per feed
        section, in section order. */
    constructor (eventQueue: seq<Bytes>, config: Config)
      requires PollInterval(config).Ok?
      ensures this.eventQueue == eventQueue
      ensures pollInterval == PollInterval(config).value
      ensures inreachFeeds == Registry(config)
    {
      var feeds: seq<Feed> := [];
      var i := 0;
      while i < |config.sections|
        invariant 0 <= i <= |config.sections|
        invariant feeds == MakeFeeds(config, FeedSections(config.sections[..i]))
      {
        var name := config.sections[i];
        RegistryStep(config, config.sections, i);
        if IsFeedSection(name) {
          feeds := feeds + [MakeFeed(SectionOptions(config, name))];
        }
        i := i + 1;
      }
      assert config.sections[..i] == config.sections;
      this.eventQueue := eventQueue;
      pollInterval := PollInterval(config).value;
      inreachFeeds := feeds;
    }

    /** `handle_response`: renders the body and enqueues the event when it
        is non-empty; `raised` tells that the renderer raised. */
    method HandleResponse(body: Bytes, feed: Feed, render: (Bytes, Feed) -> Rendered) returns (raised: bool)
      modifies this`eventQueue
      ensures raised <==> render(body, feed).RenderFailed?
      ensures eventQueue == old(eventQueue) + Enqueued(render(body, feed))
    {
      var event := render(body, feed);
      if event.RenderFailed? {
        return true;
      }
      if event.bytes != [] {
        eventQueue := eventQueue + [event.bytes];
      }
      return false;
    }

    /** `_get_inreach_feeds`: one pass over the feeds in order, feed `i`'s
        request ending in `outcomes[i]`. */
    method GetInreachFeeds(outcomes: seq<HttpOutcome>, render: (Bytes, Feed) -> Rendered) returns (end: PassEnd)
      requires |outcomes| == |inreachFeeds|
      modifies this`eventQueue
      ensures var r := PassOver(inreachFeeds, outcomes, render, |inreachFeeds|);
        eventQueue == old(eventQueue) + r.events && end == r.end
    {
      var i := 0;
      while i < |inreachFeeds|
        invariant 0 <= i <= |inreachFeeds|
        invariant PassOver(inreachFeeds, outcomes, render, i).end == Completed
        invariant eventQueue == old(eventQueue) + PassOver(inreachFeeds, outcomes, render, i).events
      {
        var feed := inreachFeeds[i];
        PassOverNext(inreachFeeds, outcomes, render, i);
        match outcomes[i]
        case TransportError =>
          end := TransportFailed(i);
          PassStopped(inreachFeeds, outcomes, render, i + 1, |inreachFeeds|);
          return;
        case Response(status, body) =>
          if status == 200 {
            var raised := HandleResponse(body, feed, render);
            if raised {
              end := RendererRaised(i);
              PassStopped(inreachFeeds, outcomes, render, i + 1, |inreachFeeds|);
              return;
            }
          }
        i := i + 1;
      }
      end := Completed;
    }
  }

  /** Taking in one more section appends its entry when it is a feed
      section and nothing otherwise. */
  lemma RegistryStep(c: Config, names: seq<string>, i: nat)
    requires i < |names|
    ensures MakeFeeds(c, FeedSections(names[..i + 1]))
      == MakeFeeds(c, FeedSections(names[..i]))
         + (if IsFeedSection(names[i]) then [MakeFeed(SectionOptions(c, names[i]))] else [])
  {
    SectionsWithStep(names, i, FeedMarker);
    var front := FeedSections(names[..i]);
    if IsFeedSection(names[i]) {
      assert (front + [names[i]])[..|front|] == front;
    }
  }

  /** Once a pass has stopped, the remaining feeds change nothing. */
  lemma {:induction false} PassStopped(feeds: seq<Feed>, outcomes: seq<HttpOutcome>, render: (Bytes, Feed) -> Rendered, m: nat, n: nat)
    requires m <= n <= |feeds| && n <= |outcomes|
    requires !PassOver(feeds, outcomes, render, m).end.Completed?
    ensures PassOver(feeds, outcomes, render, n) == PassOver(feeds, outcomes, render, m)
    decreases n
  {
    if n > m {
      PassStopped(feeds, outcomes, render, m, n - 1);
    }
  }

  /** A name is a feed section exactly when the marker occurs somewhere in
      it, not only at its start. */
  lemma FeedSectionIff(name: string)
    ensures IsFeedSection(name) <==>
      exists i, j :: 0 <= i <= j <= |name| && name[i..j] == "inrcot_feed_"
  {
    ContainsIff(name, FeedMarker);
  }

  /** The registry has one entry per feed section, in section order, and a
      section that is not a feed section contributes nothing. */
  lemma RegistryOfSections(c: Config, before: seq<string>, name: string, after: seq<string>)
    requires c.sections == before + [name] + after
    ensures Registry(c) == MakeFeeds(c, FeedSections(before))
      + (if IsFeedSection(name) then [MakeFeed(SectionOptions(c, name))] else [])
      + MakeFeeds(c, FeedSections(after))
  {
    SectionsWithAppend(before + [name], after, FeedMarker);
    SectionsWithAppend(before, [name], FeedMarker);
    assert FeedSections([name]) == (if IsFeedSection(name) then [name] else []) by {
      assert [name][..0] == [];
    }
    MakeFeedsAppend(c, FeedSections(before), FeedSections([name]));
    MakeFeedsAppend(c, FeedSections(before) + FeedSections([name]), FeedSections(after));
  }

  lemma MakeFeedsAppend(c: Config, a: seq<string>, b: seq<string>)
    ensures MakeFeeds(c, a + b) == MakeFeeds(c, a) + MakeFeeds(c, b)
  {
    var r := MakeFeeds(c, a + b);
    assert forall i :: 0 <= i < |r| ==> r[i] == (MakeFeeds(c, a) + MakeFeeds(c, b))[i] by {
      forall i | 0 <= i < |r|
        ensures r[i] == (MakeFeeds(c, a) + MakeFeeds(c, b))[i]
      {
        if i < |a| {
          assert (a + b)[i] == a[i];
        } else {
          assert (a + b)[i] == b[i - |a|];
        }
      }
    }
  }

  /** An entry copies the url, icon and name options (absent when the
      section has none) and falls back to the default stale time and type. */
  lemma FeedEntryDefaults(opts: map<string, string>)
    ensures MakeFeed(opts).feedUrl == (if "feed_url" in opts then Some(opts["feed_url"]) else None)
    ensures MakeFeed(opts).cotIcon == (if "cot_icon" in opts then Some(opts["cot_icon"]) else None)
    ensures MakeFeed(opts).cotName == (if "cot_name" in opts then Some(opts["cot_name"]) else None)
    ensures "cot_stale" !in opts ==> MakeFeed(opts).cotStale == Number(600)
    ensures "cot_stale" in opts ==> MakeFeed(opts).cotStale == Text(opts["cot_stale"])
    ensures "cot_type" !in opts ==> MakeFeed(opts).cotType == "a-.-G-E-V-C"
    ensures "cot_type" in opts ==> MakeFeed(opts).cotType == opts["cot_type"]
  {
  }

  /** What a registry entry holds under each key the translator reads. */
  lemma FeedDictKeys(f: Feed)
    ensures "cot_stale" in FeedDict(f) && FeedDict(f)["cot_stale"] == SettingText(f.cotStale)
    ensures "cot_type" in FeedDict(f) && FeedDict(f)["cot_type"] == f.cotType
    ensures ("cot_name" in FeedDict(f)) == f.cotName.Some?
    ensures f.cotName.Some? ==> FeedDict(f)["cot_name"] == f.cotName.value
  {
    var base := map["cot_stale" := SettingText(f.cotStale), "cot_type" := f.cotType];
    var m := With(With(base, "feed_url", f.feedUrl), "cot_icon", f.cotIcon);
    assert "cot_stale" in m && m["cot_stale"] == SettingText(f.cotStale);
    assert "cot_type" in m && m["cot_type"] == f.cotType;
    assert "cot_name" !in m;
  }

  /** The translator reads the same stale time, type and name from a
      registry entry as from the feed section's own options; the integer
      default 600 reads back as 600. */
  lemma FeedDictSettings(opts: map<string, string>, reported: Option<string>)
    ensures Functions.StaleSeconds(FeedDict(MakeFeed(opts))) == Functions.StaleSeconds(opts)
    ensures Functions.CotType(FeedDict(MakeFeed(opts))) == Functions.CotType(opts)
    ensures Functions.EffectiveName(FeedDict(MakeFeed(opts)), reported) == Functions.EffectiveName(opts, reported)
  {
    FeedDictKeys(MakeFeed(opts));
    if "cot_stale" !in opts {
      ParseIntOfDecimal(Constants.DefaultCotStale);
    }
  }

  /** So translating a block with a registry entry gives the event the
      section's own options give. */
  lemma FeedDictTranslation(opts: map<string, string>, block: Element, now: int, isoUtc: int -> string)
    ensures Functions.InreachToCotXml(block, FeedDict(MakeFeed(opts)), now, isoUtc)
         == Functions.InreachToCotXml(block, opts, now, isoUtc)
  {
    var report := Functions.ReadReport(block);
    if report.Ok? {
      FeedDictSettings(opts, report.value.name);
    }
  }

  /** The poll interval is found exactly when the `inrcot` section exists
      and its `poll_interval`, when given, is an integer; it is 120 when
      not given. */
  lemma PollIntervalIff(c: Config)
    ensures PollInterval(c).Ok? <==>
      ("inrcot" in c.sections
       && ("poll_interval" in SectionOptions(c, "inrcot") ==> ParseInt(SectionOptions(c, "inrcot")["poll_interval"]).Some?))
    ensures "inrcot" in c.sections && "poll_interval" !in SectionOptions(c, "inrcot") ==> PollInterval(c) == Ok(120)
    ensures "inrcot" !in c.sections ==> PollInterval(c) == Err(MissingSection("inrcot"))
  {
  }

  /** A poll interval written in decimal is read back as that number. */
  lemma PollIntervalOfDecimal(c: Config, n: int)
    requires "inrcot" in c.sections
    requires "poll_interval" in SectionOptions(c, "inrcot")
    requires SectionOptions(c, "inrcot")["poll_interval"] == IntToString(n)
    ensures PollInterval(c) == Ok(n)
  {
    ParseIntOfDecimal(n);
  }

  /** Appending one feed to the list appends its contribution. */
  lemma {:induction false} EmittedSnoc(feeds: seq<Feed>, outcomes: seq<HttpOutcome>, feed: Feed, outcome: HttpOutcome, render: (Bytes, Feed) -> Rendered)
    requires |feeds| == |outcomes|
    ensures Emitted(feeds + [feed], outcomes + [outcome], render)
         == Emitted(feeds, outcomes, render) + Contribution(feed, outcome, render)
    decreases |feeds|
  {
    if feeds == [] {
      assert (feeds + [feed])[1..] == [];
      assert (outcomes + [outcome])[1..] == [];
    } else {
      assert (feeds + [feed])[1..] == feeds[1..] + [feed];
      assert (outcomes + [outcome])[1..] == outcomes[1..] + [outcome];
      EmittedSnoc(feeds[1..], outcomes[1..], feed, outcome, render);
    }
  }

  /** A pass that has not stopped goes on with the next feed. */
  lemma PassOverNext(feeds: seq<Feed>, outcomes: seq<HttpOutcome>, render: (Bytes, Feed) -> Rendered, i: nat)
    requires i < |feeds| && i < |outcomes|
    requires PassOver(feeds, outcomes, render, i).end.Completed?
    ensures PassOver(feeds, outcomes, render, i + 1)
         == Step(PassOver(feeds, outcomes, render, i), i, feeds[i], outcomes[i], render)
  {
  }

  /** A feed that does not halt adds its contribution and lets the pass go
      on; one that halts stops it at that feed. */
  lemma StepContinues(r: PassResult, i: nat, feed: Feed, outcome: HttpOutcome, render: (Bytes, Feed) -> Rendered)
    ensures !Halts(feed, outcome, render) ==>
      Step(r, i, feed, outcome, render) == PassResult(r.events + Contribution(feed, outcome, render), r.polled + 1, Completed)
    ensures Halts(feed, outcome, render) ==>
      Step(r, i, feed, outcome, render) == PassResult(r.events, r.polled + 1,
        if outcome.TransportError? then TransportFailed(i) else RendererRaised(i))
  {
    if outcome.Response? && outcome.status != 200 {
      assert r.events + [] == r.events;
    }
  }

  /** Up to the first feed that halts, the pass has enqueued every
      contribution in feed order and has requested every feed. */
  lemma {:induction false} PassPrefix(feeds: seq<Feed>, outcomes: seq<HttpOutcome>, render: (Bytes, Feed) -> Rendered, n: nat)
    requires n <= |feeds| == |outcomes|
    requires forall i :: 0 <= i < n ==> !Halts(feeds[i], outcomes[i], render)
    ensures PassOver(feeds, outcomes, render, n)
         == PassResult(Emitted(feeds[..n], outcomes[..n], render), n, Completed)
  {
    if n > 0 {
      PassPrefix(feeds, outcomes, render, n - 1);
      var prev := PassOver(feeds, outcomes, render, n - 1);
      PassOverNext(feeds, outcomes, render, n - 1);
      StepContinues(prev, n - 1, feeds[n - 1], outcomes[n - 1], render);
      assert feeds[..n] == feeds[..n - 1] + [feeds[n - 1]];
      assert outcomes[..n] == outcomes[..n - 1] + [outcomes[n - 1]];
      EmittedSnoc(feeds[..n - 1], outcomes[..n - 1], feeds[n - 1], outcomes[n - 1], render);
    }
  }

  /** A pass in which no feed halts requests every feed and enqueues every
      contribution in feed order. */
  lemma PassCompletes(feeds: seq<Feed>, outcomes: seq<HttpOutcome>, render: (Bytes, Feed) -> Rendered)
    requires |feeds| == |outcomes|
    requires forall i :: 0 <= i < |feeds| ==> !Halts(feeds[i], outcomes[i], render)
    ensures PassOver(feeds, outcomes, render, |feeds|)
         == PassResult(Emitted(feeds, outcomes, render), |feeds|, Completed)
  {
    PassPrefix(feeds, outcomes, render, |feeds|);
    assert feeds[..|feeds|] == feeds && outcomes[..|outcomes|] == outcomes;
  }

  /** A pass whose first halting feed is `k` requests feeds 0 to `k`, keeps
      the events of the feeds before `k`, and ends at `k` for the reason
      feed `k` gives; no feed after `k` is requested. */
  lemma PassHalts(feeds: seq<Feed>, outcomes: seq<HttpOutcome>, render: (Bytes, Feed) -> Rendered, k: nat)
    requires k < |feeds| == |outcomes|
    requires forall i :: 0 <= i < k ==> !Halts(feeds[i], outcomes[i], render)
    requires Halts(feeds[k], outcomes[k], render)
    ensures PassOver(feeds, outcomes, render, |feeds|)
         == PassResult(Emitted(feeds[..k], outcomes[..k], render), k + 1,
                       if outcomes[k].TransportError? then TransportFailed(k) else RendererRaised(k))
  {
    PassPrefix(feeds, outcomes, render, k);
    PassStopped(feeds, outcomes, render, k + 1, |feeds|);
  }

  /** A stopped pass is already the pass over the feeds it requested. */
  lemma {:induction false} PassStopsAtPolled(feeds: seq<Feed>, outcomes: seq<HttpOutcome>, render: (Bytes, Feed) -> Rendered, n: nat)
    requires n <= |feeds| && n <= |outcomes|
    requires !PassOver(feeds, outcomes, render, n).end.Completed?
    ensures PassOver(feeds, outcomes, render, PassOver(feeds, outcomes, render, n).polled)
         == PassOver(feeds, outcomes, render, n)
  {
    if n > 0 && !PassOver(feeds, outcomes, render, n - 1).end.Completed? {
      PassStopsAtPolled(feeds, outcomes, render, n - 1);
    }
  }

  /** The pass over `n` feeds depends only on the first `n` outcomes. */
  lemma {:induction false} PassOverAgree(feeds: seq<Feed>, o1: seq<HttpOutcome>, o2: seq<HttpOutcome>, render: (Bytes, Feed) -> Rendered, n: nat)
    requires n <= |feeds| && n <= |o1| && n <= |o2|
    requires o1[..n] == o2[..n]
    ensures PassOver(feeds, o1, render, n) == PassOver(feeds, o2, render, n)
  {
    if n > 0 {
      assert o1[..n - 1] == o1[..n][..n - 1] && o2[..n - 1] == o2[..n][..n - 1];
      assert o1[n - 1] == o1[..n][n - 1] && o2[n - 1] == o2[..n][n - 1];
      PassOverAgree(feeds, o1, o2, render, n - 1);
    }
  }

  /** What the feeds a pass did not request would have answered makes no
      difference to it. */
  lemma {:induction false} UnpolledIgnored(feeds: seq<Feed>, o1: seq<HttpOutcome>, o2: seq<HttpOutcome>, render: (Bytes, Feed) -> Rendered)
    requires |feeds| == |o1| == |o2|
    requires o1[..PassOver(feeds, o1, render, |feeds|).polled] == o2[..PassOver(feeds, o1, render, |feeds|).polled]
    ensures PassOver(feeds, o2, render, |feeds|) == PassOver(feeds, o1, render, |feeds|)
  {
    var r := PassOver(feeds, o1, render, |feeds|);
    if r.end.Completed? {
      PassOverAgree(feeds, o1, o2, render, |feeds|);
    } else {
      StoppedAgree(feeds, o1, o2, render, |feeds|);
    }
  }

  /** A stopped pass is unchanged by outcomes past the feeds it requested. */
  lemma {:induction false} StoppedAgree(feeds: seq<Feed>, o1: seq<HttpOutcome>, o2: seq<HttpOutcome>, render: (Bytes, Feed) -> Rendered, n: nat)
    requires n <= |feeds| && n <= |o1| && n <= |o2|
    requires !PassOver(feeds, o1, render, n).end.Completed?
    requires o1[..PassOver(feeds, o1, render, n).polled] == o2[..PassOver(feeds, o1, render, n).polled]
    ensures PassOver(feeds, o2, render, n) == PassOver(feeds, o1, render, n)
  {
    var r := PassOver(feeds, o1, render, n);
    var p := r.polled;
    PassStopsAtPolled(feeds, o1, render, n);
    PassOverAgree(feeds, o1, o2, render, p);
    PassStopped(feeds, o2, render, p, n);
  }
}
