/**
 * The export/import round trip of a VideoAlpha module: what
 * `_parse_video_xml` reads back from the element `export_to_xml` writes.
 * The descriptor's documentation promises an identical module; these lemmas
 * state exactly which field values come back and which do not.
 */
module VideoRoundTrip {
  import opened Wrappers
  import opened XmlTree
  import opened VideoYoutube
  import opened VideoTime
  import opened VideoAlpha

  // ---------------------------------------------------------------------------
  // Reading attributes one group at a time

  /** Reading `a + b` is reading `a`, then `b` from where `a` left off. */
  lemma {:induction false} AttrsFromAppend(md: ModelData, a: seq<Attr>, b: seq<Attr>)
    ensures AttrsFrom(md, a + b) == match AttrsFrom(md, a) case Err(e) => Err(e) case Ok(m) => AttrsFrom(m, b)
    decreases |b|
  {
    if b == [] {
      assert a + b == a;
    } else {
      var init := b[..|b| - 1];
      assert (a + b)[..|a + b| - 1] == a + init;
      assert (a + b)[|a + b| - 1] == b[|b| - 1];
      AttrsFromAppend(md, a, init);
    }
  }

  // ---------------------------------------------------------------------------
  // Model data as a list of settings

  /** A store into model data that happens only when `on`. */
  datatype Setting = Setting(on: bool, key: string, value: FieldValue)

  /** The model data after the settings, in order. */
  function Apply(md: ModelData, ss: seq<Setting>): ModelData
  {
    if ss == [] then md
    else
      var m := Apply(md, ss[..|ss| - 1]);
      var s := ss[|ss| - 1];
      if s.on then m[s.key := s.value] else m
  }

  /** A key set by exactly one setting holds that setting's value when it is on, and is absent otherwise. */
  lemma {:induction false} ApplyUnique(ss: seq<Setting>, i: nat)
    requires i < |ss|
    requires forall j :: 0 <= j < |ss| && j != i ==> ss[j].key != ss[i].key
    ensures ss[i].key in Apply(map[], ss) <==> ss[i].on
    ensures ss[i].on ==> Apply(map[], ss)[ss[i].key] == ss[i].value
  {
    var init := ss[..|ss| - 1];
    if i < |ss| - 1 {
      assert forall j :: 0 <= j < |init| ==> init[j] == ss[j];
      ApplyUnique(init, i);
    } else {
      ApplyAbsent(init, ss[i].key);
    }
  }

  /** A key no setting names is absent. */
  lemma {:induction false} ApplyAbsent(ss: seq<Setting>, k: string)
    requires forall j :: 0 <= j < |ss| ==> ss[j].key != k
    ensures k !in Apply(map[], ss)
  {
    if ss != [] {
      var init := ss[..|ss| - 1];
      assert forall j :: 0 <= j < |init| ==> init[j] == ss[j];
      ApplyAbsent(init, k);
    }
  }

  /** The field names of the settings, in order. */
  const Keys: seq<string> := [
    "display_name", "show_captions",
    "youtube_id_0_75", "youtube_id_1_0", "youtube_id_1_25", "youtube_id_1_5",
    "start_time", "end_time", "sub",
    "html5_sources", "source", "track"]

  /** The field names are distinct. */
  lemma KeysDistinct()
    ensures forall i, j :: 0 <= i < |Keys| && 0 <= j < |Keys| && i != j ==> Keys[i] != Keys[j]
  {
    forall i, j | 0 <= i < |Keys| && 0 <= j < |Keys| && i != j
      ensures Keys[i] != Keys[j]
    {
      if |Keys[i]| == |Keys[j]| {
        assert Keys[i][0] != Keys[j][0] || Keys[i][|Keys[i]| - 1] != Keys[j][|Keys[j]| - 1] || Keys[i][|Keys[i]| - 2] != Keys[j][|Keys[j]| - 2];
      }
    }
  }

  /** An id setting: the speed's field, set when its id is non-empty. */
  function IdSetting(ids: YoutubeIds, s: Speed): Setting
  {
    Setting(ids.Get(s) != "", IdField(s), Text(ids.Get(s)))
  }

  /** The settings of the display name and the captions flag. */
  function HeadSettings(f: VideoFields): seq<Setting>
  {
    [ Setting(f.displayName != "", "display_name", Text(f.displayName)),
      Setting(true, "show_captions", Flag(f.showCaptions)) ]
  }

  /** The settings of the two times and the subtitles. */
  function TailSettings(f: VideoFields): seq<Setting>
  {
    [ Setting(f.startTime != 0, "start_time", Time(Seconds(f.startTime))),
      Setting(f.endTime != 0, "end_time", Time(Seconds(f.endTime))),
      Setting(f.sub != "", "sub", Text(f.sub)) ]
  }

  /** The settings the children give: the HTML5 sources, the download source and the track. */
  function ChildSettings(f: VideoFields): seq<Setting>
  {
    var srcs := f.html5Sources;
    [ Setting(srcs != [], "html5_sources", SourceList(SrcValues(SourceChildren(srcs)))),
      Setting(srcs != [], "source", Text(if srcs != [] then srcs[0] else "")),
      Setting(f.track != "", "track", Text(f.track)) ]
  }

  /** The model data an exported module reads back as, one setting per field. */
  function Settings(f: VideoFields): seq<Setting>
  {
    HeadSettings(f) + IdSettings(f.youtube, Speeds) + TailSettings(f) + ChildSettings(f)
  }

  /** The settings set the fields of `Keys`, in that order. */
  lemma SettingsKeys(f: VideoFields)
    ensures |Settings(f)| == |Keys| && forall i :: 0 <= i < |Keys| ==> Settings(f)[i].key == Keys[i]
  {
    var head, ids, tail, children := HeadSettings(f), IdSettings(f.youtube, Speeds), TailSettings(f), ChildSettings(f);
    GroupKeys(f);
    KeysAppend(head, ids, Keys[..2], Keys[2..6]);
    KeysAppend(head + ids, tail, Keys[..2] + Keys[2..6], Keys[6..9]);
    KeysAppend(head + ids + tail, children, Keys[..2] + Keys[2..6] + Keys[6..9], Keys[9..]);
    KeysSlices();
  }

  /** Each group of settings sets its stretch of `Keys`. */
  lemma GroupKeys(f: VideoFields)
    ensures KeysAre(HeadSettings(f), Keys[..2])
    ensures KeysAre(IdSettings(f.youtube, Speeds), Keys[2..6])
    ensures KeysAre(TailSettings(f), Keys[6..9])
    ensures KeysAre(ChildSettings(f), Keys[9..])
  {
  }

  /** `Keys` in its four stretches. */
  lemma KeysSlices()
    ensures Keys[..2] + Keys[2..6] + Keys[6..9] + Keys[9..] == Keys
  {
    assert Keys[..2] + Keys[2..6] == Keys[..6];
    assert Keys[..6] + Keys[6..9] == Keys[..9];
  }

  /** The settings `ss` set the keys `ks`, one by one. */
  predicate KeysAre(ss: seq<Setting>, ks: seq<string>)
  {
    |ss| == |ks| && forall i :: 0 <= i < |ss| ==> ss[i].key == ks[i]
  }

  /** Joining settings joins their keys. */
  lemma KeysAppend(a: seq<Setting>, b: seq<Setting>, ka: seq<string>, kb: seq<string>)
    requires KeysAre(a, ka) && KeysAre(b, kb)
    ensures KeysAre(a + b, ka + kb)
  {
  }

  /** A field of the exported module's model data, as its one setting leaves it. */
  lemma SettingBack(f: VideoFields, i: nat)
    requires i < |Keys|
    ensures Keys[i] in Apply(map[], Settings(f)) <==> Settings(f)[i].on
    ensures Settings(f)[i].on ==> Apply(map[], Settings(f))[Keys[i]] == Settings(f)[i].value
  {
    SettingsKeys(f);
    KeysDistinct();
    ApplyUnique(Settings(f), i);
  }

  /** Applying `a + b` is applying `a`, then `b`. */
  lemma {:induction false} ApplyAppend(md: ModelData, a: seq<Setting>, b: seq<Setting>)
    ensures Apply(md, a + b) == Apply(Apply(md, a), b)
    decreases |b|
  {
    if b == [] {
      assert a + b == a;
    } else {
      var init := b[..|b| - 1];
      assert (a + b)[..|a + b| - 1] == a + init;
      assert (a + b)[|a + b| - 1] == b[|b| - 1];
      ApplyAppend(md, a, init);
    }
  }

  /** Settings that are all off change nothing. */
  lemma {:induction false} ApplyOff(md: ModelData, ss: seq<Setting>)
    requires forall j :: 0 <= j < |ss| ==> !ss[j].on
    ensures Apply(md, ss) == md
  {
    if ss != [] {
      var init := ss[..|ss| - 1];
      assert forall j :: 0 <= j < |init| ==> init[j] == ss[j];
      ApplyOff(md, init);
    }
  }

  /** The id settings of some speeds, in order. */
  function IdSettings(ids: YoutubeIds, ss: seq<Speed>): (r: seq<Setting>)
    ensures |r| == |ss| && forall i :: 0 <= i < |ss| ==> r[i] == IdSetting(ids, ss[i])
  {
    seq(|ss|, i requires 0 <= i < |ss| => IdSetting(ids, ss[i]))
  }

  /** Storing the ids of some speeds is applying their id settings. */
  lemma {:induction false} SetIdsApply(md: ModelData, ids: YoutubeIds, ss: seq<Speed>)
    ensures SetIds(md, ids, ss) == Apply(md, IdSettings(ids, ss))
  {
    if ss != [] {
      SetIdsApply(md, ids, ss[..|ss| - 1]);
      IdSettingsStep(ids, ss);
    }
  }

  /** The id settings of some speeds are those of all but the last, then the last one's. */
  lemma IdSettingsStep(ids: YoutubeIds, ss: seq<Speed>)
    requires ss != []
    ensures IdSettings(ids, ss)[..|ss| - 1] == IdSettings(ids, ss[..|ss| - 1])
    ensures IdSettings(ids, ss)[|ss| - 1] == IdSetting(ids, ss[|ss| - 1])
  {
  }

  /** The kept attributes of two runs of candidates are those of each. */
  lemma {:induction false} TruthyAppend(a: seq<Candidate>, b: seq<Candidate>)
    ensures TruthyAttrs(a + b) == TruthyAttrs(a) + TruthyAttrs(b)
    decreases |b|
  {
    if b == [] {
      assert a + b == a;
    } else {
      var init := b[..|b| - 1];
      assert (a + b)[..|a + b| - 1] == a + init;
      assert (a + b)[|a + b| - 1] == b[|b| - 1];
      TruthyAppend(a, init);
    }
  }

  /** The candidates in three groups: display name and captions flag, the YouTube string, and the times and subtitles. */
  lemma CandidateGroups(f: VideoFields)
    ensures TruthyAttrs(Candidates(f)) ==
            TruthyAttrs(HeadCandidates(f)) + Keep(YoutubeCandidate(f.youtube)) + TruthyAttrs(TailCandidates(f))
  {
    var head, mid, tail := HeadCandidates(f), YoutubeCandidate(f.youtube), TailCandidates(f);
    TruthyAppend(head + [mid], tail);
    TruthyAppend(head, [mid]);
    assert TruthyAttrs([mid]) == Keep(mid) by {
      assert [mid][..0] == [];
    }
  }

  /** Reading one more candidate whose setting is known. */
  lemma StepBack(md: ModelData, cs: seq<Candidate>, ss: seq<Setting>, m: ModelData)
    requires |cs| == |ss| > 0
    requires AttrsFrom(md, TruthyAttrs(cs[..|cs| - 1])) == Ok(Apply(m, ss[..|ss| - 1]))
    requires var c, s := cs[|cs| - 1], ss[|ss| - 1];
             c.truthy == s.on && (c.truthy ==> AttrData(Apply(m, ss[..|ss| - 1]), Attr(c.key, c.text)) == Ok(Apply(m, ss[..|ss| - 1])[s.key := s.value]))
    ensures AttrsFrom(md, TruthyAttrs(cs)) == Ok(Apply(m, ss))
  {
    var c := cs[|cs| - 1];
    AttrsFromAppend(md, TruthyAttrs(cs[..|cs| - 1]), Keep(c));
    if c.truthy {
      assert [Attr(c.key, c.text)][..0] == [];
    }
  }

  /** The exported display name and captions flag read back as their settings. */
  lemma HeadBack(md: ModelData, f: VideoFields)
    ensures AttrsFrom(md, TruthyAttrs(HeadCandidates(f))) == Ok(Apply(md, HeadSettings(f)))
  {
    var cs, ss := HeadCandidates(f), HeadSettings(f);
    assert cs[..1][..0] == [] && ss[..1][..0] == [];
    StepBack(md, cs[..1], ss[..1], md);
    assert cs[..1] == cs[..|cs| - 1] && ss[..1] == ss[..|ss| - 1];
    StepBack(md, cs, ss, md);
  }

  /** The exported YouTube string reads back as the four id settings. */
  lemma YoutubeBack(md: ModelData, ids: YoutubeIds)
    requires Separable(ids)
    ensures AttrsFrom(md, Keep(YoutubeCandidate(ids))) == Ok(Apply(md, IdSettings(ids, Speeds)))
  {
    var c := YoutubeCandidate(ids);
    if c.truthy {
      assert [Attr(c.key, c.text)][..0] == [];
      YoutubeRoundTrip(ids);
      SetIdsApply(md, ids, Speeds);
    } else {
      CreateEmpty(ids);
      ApplyOff(md, IdSettings(ids, Speeds));
    }
  }

  /** An exported time shorter than a day reads back as its seconds. */
  lemma TimeBack(key: string, n: nat, m: ModelData)
    requires key == "start_time" || key == "end_time"
    requires 0 < n < 86400
    ensures AttrData(m, Attr(key, FormatDelta(n))) == Ok(m[key := Time(Seconds(n))])
  {
    TimeRoundTrip(n);
  }

  /** Reading one candidate whose setting is known. */
  lemma OneBack(m: ModelData, c: Candidate, s: Setting)
    requires c.truthy == s.on
    requires c.truthy ==> AttrData(m, Attr(c.key, c.text)) == Ok(m[s.key := s.value])
    ensures AttrsFrom(m, Keep(c)) == Ok(Apply(m, [s]))
  {
    assert [s][..0] == [];
    if c.truthy {
      assert [Attr(c.key, c.text)][..0] == [];
    }
  }

  /** Keeping three candidates keeps each in turn. */
  lemma TruthyThree(cs: seq<Candidate>)
    requires |cs| == 3
    ensures TruthyAttrs(cs) == Keep(cs[0]) + Keep(cs[1]) + Keep(cs[2])
  {
    assert cs[..|cs| - 1] == cs[..2];
    assert cs[..2][..1] == cs[..1];
    assert cs[..1][..0] == [];
    assert TruthyAttrs(cs[..1]) == Keep(cs[0]);
    assert TruthyAttrs(cs[..2]) == Keep(cs[0]) + Keep(cs[1]);
  }

  /** Applying three settings applies each in turn. */
  lemma ApplyThree(md: ModelData, ss: seq<Setting>)
    requires |ss| == 3
    ensures Apply(md, ss) == Apply(Apply(Apply(md, [ss[0]]), [ss[1]]), [ss[2]])
  {
    assert ss == [ss[0]] + [ss[1]] + [ss[2]];
    ApplyAppend(md, [ss[0]] + [ss[1]], [ss[2]]);
    ApplyAppend(md, [ss[0]], [ss[1]]);
  }

  /** The exported times and subtitles read back as their settings. */
  lemma TailBack(md: ModelData, f: VideoFields)
    requires f.startTime < 86400 && f.endTime < 86400
    ensures AttrsFrom(md, TruthyAttrs(TailCandidates(f))) == Ok(Apply(md, TailSettings(f)))
  {
    var cs, ss := TailCandidates(f), TailSettings(f);
    var m1 := Apply(md, [ss[0]]);
    var m2 := Apply(m1, [ss[1]]);
    assert AttrsFrom(md, Keep(cs[0])) == Ok(m1) by {
      if f.startTime != 0 {
        TimeBack("start_time", f.startTime, md);
      }
      OneBack(md, cs[0], ss[0]);
    }
    assert AttrsFrom(m1, Keep(cs[1])) == Ok(m2) by {
      if f.endTime != 0 {
        TimeBack("end_time", f.endTime, m1);
      }
      OneBack(m1, cs[1], ss[1]);
    }
    OneBack(m2, cs[2], ss[2]);
    TruthyThree(cs);
    ApplyThree(md, ss);
    AttrsFromAppend(md, Keep(cs[0]), Keep(cs[1]));
    AttrsFromAppend(md, Keep(cs[0]) + Keep(cs[1]), Keep(cs[2]));
  }

  /** All exported attributes read back as the settings before the children's. */
  lemma AttrsBack(f: VideoFields)
    requires Separable(f.youtube) && f.startTime < 86400 && f.endTime < 86400
    ensures AttrsFrom(map[], TruthyAttrs(Candidates(f))) ==
            Ok(Apply(map[], HeadSettings(f) + IdSettings(f.youtube, Speeds) + TailSettings(f)))
  {
    var head, ids, tail := HeadSettings(f), IdSettings(f.youtube, Speeds), TailSettings(f);
    var front := TruthyAttrs(HeadCandidates(f));
    var yt := Keep(YoutubeCandidate(f.youtube));
    CandidateGroups(f);
    HeadBack(map[], f);
    AttrsFromAppend(map[], front, yt);
    YoutubeBack(Apply(map[], head), f.youtube);
    ApplyAppend(map[], head, ids);
    AttrsFromAppend(map[], front + yt, TruthyAttrs(TailCandidates(f)));
    TailBack(Apply(map[], head + ids), f);
    ApplyAppend(map[], head + ids, tail);
  }

  // ---------------------------------------------------------------------------
  // Reading the children back

  /** The exported `<source>` children are all found, in order. */
  lemma {:induction false} FindAllSources(srcs: seq<string>)
    ensures FindAll(SourceChildren(srcs), "source") == SourceChildren(srcs)
  {
    if srcs != [] {
      assert SourceChildren(srcs)[1..] == SourceChildren(srcs[1..]);
      FindAllSources(srcs[1..]);
      assert SourceChildren(srcs) == [SourceChildren(srcs)[0]] + SourceChildren(srcs)[1..];
    }
  }

  /** The children `export_to_xml` writes are found as it wrote them. */
  lemma ChildrenBack(srcs: seq<string>, track: string)
    ensures FindAll(SourceChildren(srcs) + TrackChild(track), "source") == SourceChildren(srcs)
    ensures Find(SourceChildren(srcs) + TrackChild(track), "track") ==
            if track != "" then Some(Bare("track", [Attr("src", track)], [])) else None
  {
    var sc, tc := SourceChildren(srcs), TrackChild(track);
    FindAllAppend(sc, tc, "source");
    FindAllAppend(sc, tc, "track");
    FindAllSources(srcs);
    assert FindAll(tc, "source") == [];
    assert sc + [] == sc;
    NoSourceIsTrack(srcs);
  }

  /** No exported `<source>` child is found as a `<track>`. */
  lemma {:induction false} NoSourceIsTrack(srcs: seq<string>)
    ensures FindAll(SourceChildren(srcs), "track") == []
  {
    if srcs != [] {
      assert SourceChildren(srcs)[1..] == SourceChildren(srcs[1..]);
      NoSourceIsTrack(srcs[1..]);
    }
  }

  /** The `src` values of the exported `<source>` children are the HTML5 sources. */
  lemma SrcsBack(srcs: seq<string>)
    ensures |SrcValues(SourceChildren(srcs))| == |srcs|
    ensures forall i :: 0 <= i < |srcs| ==> SrcValues(SourceChildren(srcs))[i] == Some(srcs[i])
  {
  }

  /** The children read back as their settings. */
  lemma ChildrenSettingsBack(md: ModelData, f: VideoFields)
    ensures ChildData(md, SourceChildren(f.html5Sources) + TrackChild(f.track)) == Apply(md, ChildSettings(f))
  {
    var srcs, ss := f.html5Sources, ChildSettings(f);
    var withSources :=
      if srcs != [] then md["html5_sources" := SourceList(SrcValues(SourceChildren(srcs)))]["source" := Text(srcs[0])]
      else md;
    assert Apply(Apply(md, [ss[0]]), [ss[1]]) == withSources by {
      ApplyOne(md, ss[0]);
      ApplyOne(Apply(md, [ss[0]]), ss[1]);
    }
    ApplyOne(withSources, ss[2]);
    ApplyThree(md, ss);
    ChildrenBack(srcs, f.track);
    if srcs != [] {
      SrcsBack(srcs);
    }
  }

  /** Applying a single setting. */
  lemma ApplyOne(md: ModelData, s: Setting)
    ensures Apply(md, [s]) == if s.on then md[s.key := s.value] else md
  {
    assert [s][..0] == [];
  }

  /** Parsing the exported element gives the model data of all twelve settings. */
  lemma ParseExported(f: VideoFields)
    requires Separable(f.youtube) && f.startTime < 86400 && f.endTime < 86400
    ensures ModelDataOf(Exported(f)) == Ok(Apply(map[], Settings(f)))
  {
    var attrSettings := HeadSettings(f) + IdSettings(f.youtube, Speeds) + TailSettings(f);
    AttrsBack(f);
    ChildrenSettingsBack(Apply(map[], attrSettings), f);
    ApplyAppend(map[], attrSettings, ChildSettings(f));
  }

  // ---------------------------------------------------------------------------
  // The field values that come back

  /** What a module's fields read after an export and a re-import: an empty display name comes back as the default, and the download source as the first HTML5 source, or empty when there is none. */
  function Reimported(f: VideoFields): VideoFields
  {
    f.(displayName := if f.displayName != "" then f.displayName else Defaults.displayName,
       source := if f.html5Sources != [] then f.html5Sources[0] else Defaults.source)
  }

  /** The text fields that come back. */
  lemma TextFieldsBack(f: VideoFields)
    ensures TextOr(Apply(map[], Settings(f)), "display_name", Defaults.displayName) == Reimported(f).displayName
    ensures TextOr(Apply(map[], Settings(f)), "source", Defaults.source) == Reimported(f).source
    ensures TextOr(Apply(map[], Settings(f)), "track", Defaults.track) == f.track
    ensures TextOr(Apply(map[], Settings(f)), "sub", Defaults.sub) == f.sub
  {
    SettingBack(f, 0);
    SettingBack(f, 8);
    SettingBack(f, 10);
    SettingBack(f, 11);
  }

  /** The captions flag and the times that come back. */
  lemma SettingsFieldsBack(f: VideoFields)
    ensures FlagOr(Apply(map[], Settings(f)), "show_captions", Defaults.showCaptions) == f.showCaptions
    ensures SecondsOr(Apply(map[], Settings(f)), "start_time", Defaults.startTime) == f.startTime
    ensures SecondsOr(Apply(map[], Settings(f)), "end_time", Defaults.endTime) == f.endTime
  {
    SettingBack(f, 1);
    SettingBack(f, 6);
    SettingBack(f, 7);
  }

  /** The YouTube ids that come back. */
  lemma IdsBack(f: VideoFields)
    ensures TextOr(Apply(map[], Settings(f)), IdField(Speed75), "") == f.youtube.id75
    ensures TextOr(Apply(map[], Settings(f)), IdField(Speed100), "") == f.youtube.id100
    ensures TextOr(Apply(map[], Settings(f)), IdField(Speed125), "") == f.youtube.id125
    ensures TextOr(Apply(map[], Settings(f)), IdField(Speed150), "") == f.youtube.id150
  {
    SettingBack(f, 2);
    SettingBack(f, 3);
    SettingBack(f, 4);
    SettingBack(f, 5);
  }

  /** The HTML5 sources that come back. */
  lemma SourcesBack(f: VideoFields)
    ensures SourcesOr(Apply(map[], Settings(f)), "html5_sources", Defaults.html5Sources) == f.html5Sources
  {
    SettingBack(f, 9);
    SrcsBack(f.html5Sources);
  }

  /**
   * Export then import: for ids with no `,` or `:` and times shorter than a
   * day, parsing the exported element succeeds and every field comes back,
   * except that an empty display name comes back as the default and the
   * download source as the first HTML5 source (or empty).
   */
  lemma ExportImport(f: VideoFields)
    requires Separable(f.youtube) && f.startTime < 86400 && f.endTime < 86400
    ensures ModelDataOf(Exported(f)).Ok?
    ensures Imported(ModelDataOf(Exported(f)).value) == Reimported(f)
  {
    ParseExported(f);
    TextFieldsBack(f);
    SettingsFieldsBack(f);
    IdsBack(f);
    SourcesBack(f);
  }

  /** The modules that do come back unchanged: a non-empty display name, and a download source equal to the first HTML5 source (or empty when there is none). */
  lemma ExportImportIdentity(f: VideoFields)
    requires Separable(f.youtube) && f.startTime < 86400 && f.endTime < 86400
    requires f.displayName != ""
    requires f.source == if f.html5Sources != [] then f.html5Sources[0] else ""
    ensures ModelDataOf(Exported(f)).Ok?
    ensures Imported(ModelDataOf(Exported(f)).value) == f
  {
    ExportImport(f);
    ReimportedIdentity(f);
  }

  /** `Reimported` changes nothing on a module with a display name and the first HTML5 source (or none) as download source. */
  lemma ReimportedIdentity(f: VideoFields)
    requires f.displayName != ""
    requires f.source == if f.html5Sources != [] then f.html5Sources[0] else ""
    ensures Reimported(f) == f
  {
  }

  /** A start time of a day or more is written so that re-importing the module raises. */
  lemma LongStartFails(f: VideoFields)
    requires Separable(f.youtube) && f.startTime >= 86400
    ensures ModelDataOf(Exported(f)).Err?
  {
    var front := TruthyAttrs(HeadCandidates(f)) + Keep(YoutubeCandidate(f.youtube));
    var m := Apply(Apply(map[], HeadSettings(f)), IdSettings(f.youtube, Speeds));
    assert AttrsFrom(map[], front) == Ok(m) by {
      HeadBack(map[], f);
      AttrsFromAppend(map[], TruthyAttrs(HeadCandidates(f)), Keep(YoutubeCandidate(f.youtube)));
      YoutubeBack(Apply(map[], HeadSettings(f)), f.youtube);
    }
    LongStartTail(m, f);
    CandidateGroups(f);
    AttrsFromAppend(map[], front, TruthyAttrs(TailCandidates(f)));
  }

  /** A start time of a day or more stops the reading of the times and subtitles. */
  lemma LongStartTail(md: ModelData, f: VideoFields)
    requires f.startTime >= 86400
    ensures AttrsFrom(md, TruthyAttrs(TailCandidates(f))).Err?
  {
    var cs := TailCandidates(f);
    TruthyThree(cs);
    assert AttrsFrom(md, Keep(cs[0])).Err? by {
      LongTimeRejected(f.startTime);
      assert Keep(cs[0]) == [Attr("start_time", FormatDelta(f.startTime))];
      assert Keep(cs[0])[..0] == [];
    }
    assert Keep(cs[0]) + Keep(cs[1]) + Keep(cs[2]) == Keep(cs[0]) + (Keep(cs[1]) + Keep(cs[2]));
    AttrsFromAppend(md, Keep(cs[0]), Keep(cs[1]) + Keep(cs[2]));
  }

}
