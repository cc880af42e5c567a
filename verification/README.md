# inrcot: a verified model of the inReach-to-Cursor-on-Target gateway

inrcot polls Garmin inReach MapShare KML feeds and turns each position report
into a Cursor-on-Target (CoT) `event`. This project is a Dafny model of the two
parts of the gateway that hold logic, with proofs about both:

- **The translator** (`inrcot/functions.py`), modelled as functions over an XML
  element datatype.
  - `split_feed` picks the KML `Folder` blocks out of a feed.
  - `inreach_to_cot_xml` reads one block's placemark name, coordinates and
    timestamp, and builds the `event` tree.
  - `inreach_to_cot` serializes that tree.
- **The worker** (`inrcot/classes.py`), modelled as a class `InrWorker` with
  the poll interval, the feed list and the event queue as fields.
  - Its constructor builds one feed entry per configuration section whose name
    contains `inrcot_feed_`.
  - `GetInreachFeeds` is one polling pass: it visits the feeds in order and
    appends rendered events to the queue.

Modules:

- `Wrappers`: `Option` and `Result`.
- `Xml`: elements, `find`, `findall` and attribute lookup.
- `Strings`: `split`/join, removing spaces, the substring test, and Python's
  `int()` on text. It also holds the decimal text of an integer, which stands
  for the integer default stale time (600) when that default reaches `int()`.
- `Constants`: the defaults from `inrcot/constants.py`.
- `Functions`: the translator.
- `FunctionsProofs`: what the translator is proved to do.
- `Classes`: the registry, the poll interval, the pass and the worker class.

Parameters stand in for what cannot be modelled:

- The wall clock is an integer `now` in seconds.
- `strftime` formatting is a function `isoUtc: int -> string`.
- `ElementTree.tostring` is a function `tostring: Element -> Bytes`.
- Each feed's HTTP request is an `HttpOutcome`: a transport exception, or a
  status with a body.
- The renderer the worker calls is a function `render` that returns an event
  or raises (`RenderFailed`).

Each way the Python code raises is an `Err` value:

- `NotFound`: attribute access on the `None` that `find` returns.
- `NoText`: coordinates without text.
- `Unpack`: unpacking `split(",")` into three names fails.
- `NotAnInt`: `int()` rejects the stale setting.
- `NotSerializable`: `tostring` meets a `None` attribute.

The code and the tests disagree on several points; the model follows the code.
`tests/test_functions.py` comes from a newer revision:

- It expects the default type `a-f-g-e-s` (line 31), while the code's default
  is `a-.-G-E-V-C` (`inrcot/constants.py` line 31).
- It expects `None` where the code raises.
- It calls a `create_feeds` the code does not have.

`TwoWordTranslation` restates, for a MapShare-shaped block, the checks of
those tests that agree with the code:

- the uid `Garmin-inReach.GregAlbrecht`;
- the latitude and longitude copied as text;
- the callsign `Greg Albrecht (inReach)`, as the `contact` attribute.

The check at `tests/test_functions.py` line 44 looks for the callsign in the
serialized bytes. It is not covered, because `tostring` is a function
parameter.

## Model

| member | source | states |
|---|---|---|
| Xml.TaggedMembers | inrcot/functions.py:25 | `findall` keeps exactly the children with the tag |
| Xml.TaggedAppend | inrcot/functions.py:25 | `findall` over concatenated children is the concatenation of the results, so document order is kept |
| Xml.FindFirst | inrcot/functions.py:24 | `find` is `None` exactly when no child has the tag; otherwise it is the first child with the tag |
| Xml.FindAt | inrcot/functions.py:36-43 | a child with the tag that has no earlier child with the tag is what `find` returns |
| Strings.Split | inrcot/functions.py:45 | `split(",")` gives one more part than there are commas, and no part contains a comma |
| Strings.JoinSplit | inrcot/functions.py:45 | joining the parts of a split with the separator gives the text back |
| Strings.SplitJoin | inrcot/functions.py:45 | splitting a join of separator-free parts gives the parts back |
| Strings.RemoveSpaces | inrcot/functions.py:96 | `replace(" ", "")` leaves no space |
| Strings.RemoveSpacesIdentity | inrcot/functions.py:96 | removing spaces changes a string exactly when it has a space |
| Strings.RemoveSpacesAfter | inrcot/functions.py:96 | after a space-free prefix, only the rest loses its spaces |
| Strings.OneSpaceRemoved | inrcot/functions.py:96 | two space-free words separated by one space run together |
| Strings.ContainsIff | inrcot/classes.py:38 | the `in` test holds exactly when the marker occurs at some position of the name |
| Strings.NatToString | inrcot/functions.py:56 | the decimal text standing for an integer setting (the default 600 of `inrcot/classes.py` line 42) is non-empty and all digits |
| Strings.ParseIntOfDecimal | inrcot/functions.py:56 | `int()` reads the decimal text of every integer back as that integer |
| FunctionsProofs.SplitFeedFailsIff | inrcot/functions.py:24-25 | `split_feed` fails exactly when the root has no KML `Document` child, and the failure is that missing `Document` |
| FunctionsProofs.SplitFeedFolders | inrcot/functions.py:20-26 | with `document` the first `Document` child, the result is exactly the KML `Folder` children of `document`, in order (possibly none) |
| FunctionsProofs.ReadReportSteps | inrcot/functions.py:36-47 | a missing element among the six gives a `NotFound` failure; otherwise the result is decided by the coordinate text and its three-way split |
| FunctionsProofs.ReadReportSucceedsIff | inrcot/functions.py:36-47 | reading a block succeeds exactly when all six elements are there, the coordinates have text and that text has exactly two commas |
| FunctionsProofs.ReadReportTexts | inrcot/functions.py:40-43 | a read returns the `name` and `when` texts as found |
| FunctionsProofs.ReadReportCoordinates | inrcot/functions.py:45 | a read returns the coordinate text cut at its commas into lon, lat and alt, which join back to the text |
| FunctionsProofs.PointOf | inrcot/functions.py:63-68 | the event's `point` holds the report's lat and lon and the unknown sentinel for hae, ce and le |
| FunctionsProofs.DetailOf | inrcot/functions.py:70-91 | the `detail` block holds `UID`, `contact`, `track` and `remarks` in that order, with the suffixed name, the unknown course and the remarks text |
| FunctionsProofs.EventAttrsOf | inrcot/functions.py:93-100 | the `event` attributes: version, type, uid with spaces removed, how, time, start and stale |
| FunctionsProofs.TranslateSucceedsIff | inrcot/functions.py:36-56 | translation returns exactly when the block can be read and any `cot_stale` is an integer; what it returns is always an `event`, never `None` |
| FunctionsProofs.EventPoint | inrcot/functions.py:45-68 | the point's lon and lat are parts 0 and 1 of the coordinate text, unchanged; hae, ce and le are "9999999.0" |
| FunctionsProofs.EventNames | inrcot/functions.py:34-96 | with the name being a non-empty `cot_name` or else the placemark's name text: uid is "Garmin-inReach." plus the name without spaces; callsign and Droid are the name plus " (inReach)"; the remarks attribute and text are the boilerplate plus the name |
| FunctionsProofs.UidOfName | inrcot/functions.py:96 | the uid prefix loses no characters, so only the name's spaces are removed |
| FunctionsProofs.EventTimes | inrcot/functions.py:49-100 | time and start are the `when` text; stale is `now` plus `int(cot_stale)` (600 by default), independent of the report's timestamp |
| FunctionsProofs.EventFixedFields | inrcot/functions.py:58-97 | version "2.0", how "m-g", type `cot_type` or "a-.-G-E-V-C", course "9999999.0" |
| FunctionsProofs.CotEventSerializable | inrcot/functions.py:80-99 | the event tree can be serialized exactly when there is a name and a `when` text |
| FunctionsProofs.InreachToCotSucceedsIff | inrcot/functions.py:107-112 | `inreach_to_cot` returns `tostring` of the translated event exactly when translation succeeds with a name and a `when` text |
| FunctionsProofs.MapShareBlockPaths | inrcot/functions.py:36-43 | the three lookup paths find the name, when and coordinates leaves of a MapShare block |
| FunctionsProofs.MapShareRoundTrip | inrcot/functions.py:36-45 | reading a block written from a name, three comma-free coordinate parts and a timestamp gives back those values |
| FunctionsProofs.TwoWordTranslation | tests/test_functions.py:21-34 | with no settings, a two-word name gives type "a-.-G-E-V-C", uid "Garmin-inReach." plus the words run together, the given lat and lon, callsign "<name> (inReach)" and stale `now + 600` |
| Classes.SectionsWithMembers | inrcot/classes.py:37-38 | a name is kept exactly when it is in the list and contains the marker |
| Classes.FeedSectionsMembers | inrcot/classes.py:37-38 | the feed sections are exactly the listed sections whose name contains "inrcot_feed_" |
| Classes.SectionsWithStep | inrcot/classes.py:37-38 | one more section is kept exactly when it contains the marker |
| Classes.MakeFeeds | inrcot/classes.py:39-47 | one entry per name, entry `i` built from section `i`'s options |
| Classes.RegistryStep | inrcot/classes.py:37-47 | one more section appends its entry when it is a feed section, and nothing otherwise |
| Classes.SectionsWithAppend | inrcot/classes.py:37-38 | filtering two lists in turn gives the two results in turn, so section order is kept |
| Classes.FeedSectionIff | inrcot/classes.py:38 | a feed section is a name with "inrcot_feed_" anywhere in it, not only as a prefix |
| Classes.RegistryOfSections | inrcot/classes.py:37-47 | the registry is the entries of the feed sections before a section, then that section's entry if it is a feed section, then those after |
| Classes.MakeFeedsAppend | inrcot/classes.py:39 | entries of concatenated name lists are concatenated |
| Classes.FeedEntryDefaults | inrcot/classes.py:40-46 | url, icon and name are copied or absent; stale defaults to 600 and type to "a-.-G-E-V-C" |
| Classes.FeedDictKeys | inrcot/classes.py:39-47 | an entry as a dictionary always holds `cot_stale` and `cot_type`, and `cot_name` exactly when the section has one |
| Classes.FeedDictSettings | inrcot/classes.py:40-46 | the translator reads the same stale seconds, type and name from an entry as from the section's options |
| Classes.FeedDictTranslation | inrcot/classes.py:39-47 | translating with an entry gives the same result as translating with the section's options |
| Classes.PollIntervalIff | inrcot/classes.py:29-30 | the interval is read exactly when the `inrcot` section exists and any `poll_interval` is an integer; 120 by default; a missing section is the error |
| Classes.PollIntervalOfDecimal | inrcot/classes.py:29-30 | a poll interval written in decimal reads back as that number |
| Classes.PassOver | inrcot/classes.py:57-76 | a pass over `n` feeds requests at most `n` and enqueues at most one event per requested feed; a completed pass has requested all `n`, a stopped one ends at the last feed it requested |
| Classes.Emitted | inrcot/classes.py:61-74 | at most one event per feed |
| Classes.EmittedSnoc | inrcot/classes.py:61 | one more feed appends its contribution after the earlier ones |
| Classes.StepContinues | inrcot/classes.py:64-76 | a feed that does not raise adds its contribution and the pass goes on; a transport exception or a renderer raise stops the pass at that feed and adds nothing |
| Classes.PassPrefix | inrcot/classes.py:61-76 | up to the first halting feed, the pass has requested every feed and enqueued every contribution in feed order |
| Classes.PassCompletes | inrcot/classes.py:61-76 | with no exception, every feed is requested; a non-200 feed adds nothing and a 200 feed adds its non-empty event, in feed order |
| Classes.PassHalts | inrcot/classes.py:61-74 | when feed `k` is the first to raise, feeds 0 to `k` are requested, the earlier feeds' events are kept, and the pass ends at `k` with that reason |
| Classes.PassStopped | inrcot/classes.py:66-70 | once the pass has stopped, the remaining feeds change nothing |
| Classes.PassStopsAtPolled | inrcot/classes.py:66-70 | a stopped pass equals the pass over the feeds it requested |
| Classes.PassOverAgree | inrcot/classes.py:61-65 | the pass over `n` feeds depends only on the first `n` outcomes |
| Classes.StoppedAgree | inrcot/classes.py:66-70 | a stopped pass is unchanged by outcomes after the feeds it requested |
| Classes.UnpolledIgnored | inrcot/classes.py:61-70 | outcomes of feeds the pass never requested make no difference |
| Classes.InrWorker.constructor | inrcot/classes.py:23-47 | the queue is the one given, the poll interval is the configured one, and the feed list is the registry of the configuration |
| Classes.InrWorker.HandleResponse | inrcot/classes.py:49-55 | raises exactly when the renderer does; otherwise appends the event to the queue when it is non-empty, and leaves the rest of the queue unchanged |
| Classes.InrWorker.GetInreachFeeds | inrcot/classes.py:57-76 | the queue becomes its old contents followed by the pass's events, and the pass ends as `PassOver` says |

## Left out

- HTTP and aiohttp sessions (`inrcot/classes.py` lines 62-65) are not modelled. Each request is an `HttpOutcome` given to the pass.
- `response.content.read()` raising after a 200 status is not modelled. The read always yields the body.
- The `run` loop and `asyncio.sleep` (`inrcot/classes.py` lines 78-84) are an unbounded timer loop. The model covers a single pass.
- The asyncio queue is a `seq`, and `_put_event_queue` is an append.
- XML byte parsing is not modelled (`ElementTree.parse`, `inrcot/functions.py` line 22). `SplitFeed` takes the parsed root.
- `ElementTree.tostring` is a function parameter. Only its failure on `None` attributes is modelled.
- Attribute order in the serialized output is not modelled, because attributes are a map.
- `datetime.now` and `strftime` are the parameters `now` and `isoUtc`. Datetime overflow on huge stale values is not modelled.
- `handle_response` passes raw bytes, not a `Folder`, to the renderer (`inrcot/classes.py` line 51). The renderer is left abstract.
- Logging and the environment-driven log setup (`inrcot/constants.py` lines 14-22) produce no state the model observes.
- `inrcot/commands.py`, `setup.py` and `inrcot/__init__.py` are not part of this model. They are the CLI, packaging and re-exports.
- Three configparser behaviours are not modelled: folding option names (options are keyed by the folded names), the `DEFAULT` section, and interpolation.
- Strings.ParseInt: does not accept digit-group underscores or non-ASCII digits and whitespace, which Python's `int()` accepts.
- Classes.InrWorker.constructor: requires a readable poll interval. Where the source raises `KeyError` or `ValueError` from `__init__`, `PollInterval` gives the error value instead.
- Classes.FeedDict: a `None` in a feed dictionary is an absent key. The translator reads both the same way for every key it uses.
- The `lat is None or lon is None` guard (`inrcot/functions.py` lines 46-47) has no model branch. `split` never yields `None`, so the guard cannot fire.
- Tests from the newer revision (`create_feeds`, `feed_name`/`feed_auth`, `usericon`, `None` on bad data) are not modelled.
