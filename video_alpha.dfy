/**
 * The XML side of a VideoAlpha descriptor: `_parse_video_xml` turns a
 * `<videoalpha>` element into model data (field name to value),
 * `export_to_xml` turns the field values back into an element, and
 * `get_html` builds the map from file extension to HTML5 source.
 */
module VideoAlpha {
  import opened Wrappers
  import opened XmlTree
  import opened VideoYoutube
  import opened VideoTime

  // ---------------------------------------------------------------------------
  // Model data

  /** A value `_parse_video_xml` stores under a field name. */
  datatype FieldValue =
    | Text(text: string)                     // an attribute as written, or an id or a `src`
    | NoValue                                // `ele.get('src')` of a child without `src`: `None`
    | Flag(flag: bool)                       // `json.loads` of `show_captions`
    | Time(time: Parsed)                     // `_parse_time` of `start_time` or `end_time`
    | SourceList(srcs: seq<Option<string>>)  // the `src` of every `<source>` child

  type ModelData = map<string, FieldValue>

  /** Why `_parse_video_xml` raised. */
  datatype ParseError =
    | BadYoutube(youtube: YoutubeError)  // `_parse_youtube` raised
    | BadFlag(flag: string)              // `json.loads` gave no boolean (see README)
    | BadTime(time: string)              // `time.strptime` raised

  /** The field a speed's id is stored in; these are the four declared YouTube fields. */
  function IdField(s: Speed): (r: string)
    ensures r == FieldName(SpeedKey(s))
  {
    FieldNamesDeclared();
    match s
    case Speed75 => "youtube_id_0_75"
    case Speed100 => "youtube_id_1_0"
    case Speed125 => "youtube_id_1_25"
    case Speed150 => "youtube_id_1_5"
  }

  /** `json.loads` of a `show_captions` attribute, for the two JSON booleans. */
  function ParseFlag(v: string): (r: Result<FieldValue, ParseError>)
    ensures r.Ok? <==> v == "true" || v == "false"
    ensures r.Ok? ==> r.value == Flag(v == "true")
  {
    if v == "true" then Ok(Flag(true))
    else if v == "false" then Ok(Flag(false))
    else Err(BadFlag(v))
  }

  /** The `conversions` table: `show_captions` is JSON, the two times go through `_parse_time`, other attributes stay text. */
  function Convert(attr: string, value: string): Result<FieldValue, ParseError>
  {
    if attr == "show_captions" then ParseFlag(value)
    else if attr == "start_time" || attr == "end_time" then
      match ParseTime(value)
      case Err(v) => Err(BadTime(v))
      case Ok(t) => Ok(Time(t))
    else Ok(Text(value))
  }

  /** One speed of a parsed YouTube string: a non-empty id is stored in its field, an empty one sets nothing. */
  function SetId(md: ModelData, ids: YoutubeIds, s: Speed): ModelData
  {
    if ids.Get(s) != "" then md[IdField(s) := Text(ids.Get(s))] else md
  }

  /** The speeds `ss`, in order, each stored by `SetId`. */
  function SetIds(md: ModelData, ids: YoutubeIds, ss: seq<Speed>): ModelData
  {
    if ss == [] then md else SetId(SetIds(md, ids, ss[..|ss| - 1]), ids, ss[|ss| - 1])
  }

  /** One attribute: `youtube` is read into the id fields, any other is converted and stored under its own name. */
  function AttrData(md: ModelData, a: Attr): Result<ModelData, ParseError>
  {
    if a.key == "youtube" then
      match YoutubeOf(a.value)
      case Err(e) => Err(BadYoutube(e))
      case Ok(ids) => Ok(SetIds(md, ids, Speeds))
    else
      match Convert(a.key, a.value)
      case Err(e) => Err(e)
      case Ok(v) => Ok(md[a.key := v])
  }

  /** The model data after the attributes `attrs`, in document order, starting from `md`; the first error stops it. */
  function AttrsFrom(md: ModelData, attrs: seq<Attr>): Result<ModelData, ParseError>
  {
    if attrs == [] then Ok(md)
    else
      match AttrsFrom(md, attrs[..|attrs| - 1])
      case Err(e) => Err(e)
      case Ok(before) => AttrData(before, attrs[|attrs| - 1])
  }

  /** `ele.get('src')` of each element. */
  function SrcValues(es: seq<Element>): (r: seq<Option<string>>)
    ensures |r| == |es| && forall i :: 0 <= i < |es| ==> r[i] == XmlTree.Get(es[i].attrs, "src")
  {
    seq(|es|, i requires 0 <= i < |es| => XmlTree.Get(es[i].attrs, "src"))
  }

  /** A `src` as a field value. */
  function SrcValue(v: Option<string>): FieldValue
  {
    match v
    case None => NoValue
    case Some(t) => Text(t)
  }

  /** The children: `<source>` children give `html5_sources` and `source`, a `<track>` child gives `track`. */
  function ChildData(md: ModelData, children: seq<Element>): ModelData
  {
    var sources := FindAll(children, "source");
    var withSources :=
      if sources != [] then
        var srcs := SrcValues(sources);
        md["html5_sources" := SourceList(srcs)]["source" := SrcValue(srcs[0])]
      else md;
    match Find(children, "track")
    case None => withSources
    case Some(t) => withSources["track" := SrcValue(XmlTree.Get(t.attrs, "src"))]
  }

  /** `_parse_video_xml` on the parsed element. */
  function ModelDataOf(xml: Element): Result<ModelData, ParseError>
  {
    match AttrsFrom(map[], xml.attrs)
    case Err(e) => Err(e)
    case Ok(md) => Ok(ChildData(md, xml.children))
  }

  /** An error in the first attributes is the error of all of them. */
  lemma {:induction false} AttrsErrorStays(md: ModelData, attrs: seq<Attr>, k: nat)
    requires k <= |attrs| && AttrsFrom(md, attrs[..k]).Err?
    ensures AttrsFrom(md, attrs) == AttrsFrom(md, attrs[..k])
    decreases |attrs| - k
  {
    if k == |attrs| {
      assert attrs[..k] == attrs;
    } else {
      assert attrs[..k + 1][..k] == attrs[..k];
      AttrsErrorStays(md, attrs, k + 1);
    }
  }

  /** The body of `_parse_video_xml`'s attribute loop for one attribute. */
  method ReadAttr(md: ModelData, attr: Attr) returns (r: Result<ModelData, ParseError>)
    ensures r == AttrData(md, attr)
  {
    if attr.key == "youtube" {
      var speeds := ParseYoutube(attr.value);
      if speeds.Err? {
        return Err(BadYoutube(speeds.error));
      }
      var modelData := StoreIds(md, speeds.value, Speeds);
      r := Ok(modelData);
    } else {
      var value := Convert(attr.key, attr.value);
      if value.Err? {
        return Err(value.error);
      }
      r := Ok(md[attr.key := value.value]);
    }
  }

  /** The loop over the speeds of a parsed `youtube` string: each non-empty id is stored in its field. */
  method StoreIds(md: ModelData, ids: YoutubeIds, ss: seq<Speed>) returns (modelData: ModelData)
    ensures modelData == SetIds(md, ids, ss)
  {
    modelData := md;
    for j := 0 to |ss|
      invariant modelData == SetIds(md, ids, ss[..j])
    {
      assert ss[..j + 1][..j] == ss[..j];
      var youtubeId := ids.Get(ss[j]);
      if youtubeId != "" {
        modelData := modelData[FieldName(SpeedKey(ss[j])) := Text(youtubeId)];
      }
    }
    assert ss[..|ss|] == ss;
  }

  /** `[ele.get('src') for ele in sources]`. */
  method ReadSrcs(sources: seq<Element>) returns (srcs: seq<Option<string>>)
    ensures srcs == SrcValues(sources)
  {
    srcs := [];
    for i := 0 to |sources|
      invariant srcs == SrcValues(sources[..i])
    {
      srcs := srcs + [XmlTree.Get(sources[i].attrs, "src")];
    }
    assert sources[..|sources|] == sources;
  }

  /** `_parse_video_xml`, with its loops over the attributes, the speeds and the `<source>` children. */
  method ParseVideoXml(xml: Element) returns (r: Result<ModelData, ParseError>)
    ensures r == ModelDataOf(xml)
  {
    var modelData: ModelData := map[];
    for k := 0 to |xml.attrs|
      invariant AttrsFrom(map[], xml.attrs[..k]) == Ok(modelData)
    {
      var next := ReadAttr(modelData, xml.attrs[k]);
      assert xml.attrs[..k + 1][..k] == xml.attrs[..k];
      if next.Err? {
        AttrsErrorStays(map[], xml.attrs, k + 1);
        return Err(next.error);
      }
      modelData := next.value;
    }
    assert xml.attrs[..|xml.attrs|] == xml.attrs;
    var sources := FindAll(xml.children, "source");
    if sources != [] {
      var srcs := ReadSrcs(sources);
      modelData := modelData["html5_sources" := SourceList(srcs)];
      modelData := modelData["source" := SrcValue(srcs[0])];
    }
    var track := Find(xml.children, "track");
    if track.Some? {
      modelData := modelData["track" := SrcValue(XmlTree.Get(track.value.attrs, "src"))];
    }
    r := Ok(modelData);
  }

  // ---------------------------------------------------------------------------
  // Field values

  /** The settings fields of a VideoAlpha module that the XML carries. */
  datatype VideoFields = VideoFields(
    displayName: string,
    showCaptions: bool,
    youtube: YoutubeIds,
    startTime: nat,
    endTime: nat,
    source: string,
    html5Sources: seq<string>,
    track: string,
    sub: string)

  /** The declared defaults. */
  const Defaults := VideoFields("Video Alpha", true, NoIds, 0, 0, "", [], "", "")

  /** A text field: the stored text, or the fallback when nothing (or no text) is stored. */
  function TextOr(md: ModelData, key: string, fallback: string): string
  {
    if key in md && md[key].Text? then md[key].text else fallback
  }

  /** A flag field: the stored flag, or the fallback. */
  function FlagOr(md: ModelData, key: string, fallback: bool): bool
  {
    if key in md && md[key].Flag? then md[key].flag else fallback
  }

  /** A time field: the stored seconds, or the fallback (also for `_parse_time('')`). */
  function SecondsOr(md: ModelData, key: string, fallback: nat): nat
  {
    if key in md && md[key].Time? && md[key].time.Seconds? then md[key].time.seconds else fallback
  }

  /** A list field: the stored `src` values when each is present, or the fallback. */
  function SourcesOr(md: ModelData, key: string, fallback: seq<string>): seq<string>
  {
    if key in md && md[key].SourceList? && forall i :: 0 <= i < |md[key].srcs| ==> md[key].srcs[i].Some?
    then seq(|md[key].srcs|, i requires 0 <= i < |md[key].srcs| && md[key].srcs[i].Some? => md[key].srcs[i].value)
    else fallback
  }

  /** The field values a descriptor built from model data `md` shows: stored values over the declared defaults. */
  function Imported(md: ModelData): VideoFields
  {
    VideoFields(
      TextOr(md, "display_name", Defaults.displayName),
      FlagOr(md, "show_captions", Defaults.showCaptions),
      YoutubeIds(
        TextOr(md, IdField(Speed75), ""),
        TextOr(md, IdField(Speed100), ""),
        TextOr(md, IdField(Speed125), ""),
        TextOr(md, IdField(Speed150), "")),
      SecondsOr(md, "start_time", Defaults.startTime),
      SecondsOr(md, "end_time", Defaults.endTime),
      TextOr(md, "source", Defaults.source),
      SourcesOr(md, "html5_sources", Defaults.html5Sources),
      TextOr(md, "track", Defaults.track),
      TextOr(md, "sub", Defaults.sub))
  }

  // ---------------------------------------------------------------------------
  // export_to_xml

  /** An entry of the `attrs` dictionary: its name, whether its value is truthy, and `str` of the value. */
  datatype Candidate = Candidate(key: string, truthy: bool, text: string)

  /** `json.dumps` of a boolean. */
  function FlagText(b: bool): string
  {
    if b then "true" else "false"
  }

  /** A time as `export_to_xml` offers it: `timedelta(0)` is falsy. */
  function TimeCandidate(key: string, n: nat): Candidate
  {
    Candidate(key, n != 0, FormatDelta(n))
  }

  /** The candidates of the display name and the captions flag. */
  function HeadCandidates(f: VideoFields): seq<Candidate>
  {
    [Candidate("display_name", f.displayName != "", f.displayName), Candidate("show_captions", true, FlagText(f.showCaptions))]
  }

  /** The candidate of the YouTube string. */
  function YoutubeCandidate(ids: YoutubeIds): Candidate
  {
    Candidate("youtube", CreateYoutubeString(ids) != "", CreateYoutubeString(ids))
  }

  /** The candidates of the two times and the subtitles. */
  function TailCandidates(f: VideoFields): seq<Candidate>
  {
    [TimeCandidate("start_time", f.startTime), TimeCandidate("end_time", f.endTime), Candidate("sub", f.sub != "", f.sub)]
  }

  /** The `attrs` dictionary of `export_to_xml`, in its literal order. */
  function Candidates(f: VideoFields): seq<Candidate>
  {
    HeadCandidates(f) + [YoutubeCandidate(f.youtube)] + TailCandidates(f)
  }

  /** The attribute a candidate sets, if its value is truthy. */
  function Keep(c: Candidate): seq<Attr>
  {
    if c.truthy then [Attr(c.key, c.text)] else []
  }

  /** The attributes the candidates set, in order. */
  function TruthyAttrs(cs: seq<Candidate>): seq<Attr>
  {
    if cs == [] then [] else TruthyAttrs(cs[..|cs| - 1]) + Keep(cs[|cs| - 1])
  }

  /** A `<source src=...>` child per HTML5 source, in order. */
  function SourceChildren(srcs: seq<string>): (r: seq<Element>)
    ensures |r| == |srcs|
  {
    seq(|srcs|, i requires 0 <= i < |srcs| => Bare("source", [Attr("src", srcs[i])], []))
  }

  /** A `<track src=...>` child when the track is set. */
  function TrackChild(track: string): seq<Element>
  {
    if track != "" then [Bare("track", [Attr("src", track)], [])] else []
  }

  /** The element `export_to_xml` serialises. */
  function Exported(f: VideoFields): Element
  {
    Bare("videoalpha", TruthyAttrs(Candidates(f)), SourceChildren(f.html5Sources) + TrackChild(f.track))
  }

  /** The attributes kept are exactly the truthy candidates, in order. */
  lemma {:induction false} TruthyAttrsExact(cs: seq<Candidate>)
    ensures forall a :: a in TruthyAttrs(cs) <==> exists c :: c in cs && c.truthy && a == Attr(c.key, c.text)
  {
    if cs != [] {
      var init := cs[..|cs| - 1];
      TruthyAttrsExact(init);
      assert cs == init + [cs[|cs| - 1]];
    }
  }

  /** `export_to_xml`: the truthy attributes, then the `<source>` children, then the `<track>` child. */
  method ExportToXml(f: VideoFields) returns (xml: Element)
    ensures xml == Exported(f)
  {
    var written := SetAttrs(Candidates(f));
    var children := AppendChildren(f.html5Sources, f.track);
    xml := Bare("videoalpha", written, children);
  }

  /** The loop over `attrs`: each truthy value is set, as text, in order. */
  method SetAttrs(attrs: seq<Candidate>) returns (written: seq<Attr>)
    ensures written == TruthyAttrs(attrs)
  {
    written := [];
    for k := 0 to |attrs|
      invariant written == TruthyAttrs(attrs[..k])
    {
      assert attrs[..k + 1][..k] == attrs[..k];
      if attrs[k].truthy {
        written := written + [Attr(attrs[k].key, attrs[k].text)];
      }
    }
    assert attrs[..|attrs|] == attrs;
  }

  /** The `<source>` children, one per HTML5 source in order, then the `<track>` child when the track is set. */
  method AppendChildren(srcs: seq<string>, track: string) returns (children: seq<Element>)
    ensures children == SourceChildren(srcs) + TrackChild(track)
  {
    children := [];
    for i := 0 to |srcs|
      invariant children == SourceChildren(srcs[..i])
    {
      children := children + [Bare("source", [Attr("src", srcs[i])], [])];
    }
    assert srcs[..|srcs|] == srcs;
    if track != "" {
      children := children + [Bare("track", [Attr("src", track)], [])];
    }
  }

  // ---------------------------------------------------------------------------
  // The sources map of get_html

  /** `filename.rpartition('.')[-1]`: the text after the last `.`, or the whole name when it has none. */
  function Ext(name: string): (r: string)
    ensures '.' !in r
    ensures '.' !in name ==> r == name
    ensures '.' in name ==> |r| < |name| && name[|name| - |r| - 1] == '.' && name[|name| - |r|..] == r
  {
    if '.' !in name then name
    else if name[|name| - 1] == '.' then ""
    else
      var init := name[..|name| - 1];
      assert '.' in init by {
        var i :| 0 <= i < |name| && name[i] == '.';
        assert init[i] == '.';
      }
      Ext(init) + [name[|name| - 1]]
  }

  /** The sources keyed by extension, later sources overwriting earlier ones with the same extension. */
  function ByExt(srcs: seq<string>): map<string, string>
  {
    if srcs == [] then map[] else ByExt(srcs[..|srcs| - 1])[Ext(srcs[|srcs| - 1]) := srcs[|srcs| - 1]]
  }

  /** The `sources` of `get_html`: the sources by extension, then `main` set to the download source. */
  function SourcesMap(srcs: seq<string>, source: string): map<string, string>
  {
    ByExt(srcs)["main" := source]
  }

  /** The keys of the sources map are `main` and the extensions of the sources. */
  lemma {:induction false} ByExtKeys(srcs: seq<string>)
    ensures forall k :: k in ByExt(srcs) <==> exists i :: 0 <= i < |srcs| && Ext(srcs[i]) == k
  {
    if srcs != [] {
      var init := srcs[..|srcs| - 1];
      ByExtKeys(init);
      assert forall i :: 0 <= i < |init| ==> init[i] == srcs[i];
      forall k | k in ByExt(srcs)
        ensures exists i :: 0 <= i < |srcs| && Ext(srcs[i]) == k
      {
        if k != Ext(srcs[|srcs| - 1]) {
          assert k in ByExt(init);
          var i :| 0 <= i < |init| && Ext(init[i]) == k;
          assert Ext(srcs[i]) == k;
        }
      }
    }
  }

  /** Each extension maps to the last source with that extension. */
  lemma {:induction false} ByExtLastWins(srcs: seq<string>, i: nat)
    requires i < |srcs|
    requires forall j :: i < j < |srcs| ==> Ext(srcs[j]) != Ext(srcs[i])
    ensures Ext(srcs[i]) in ByExt(srcs) && ByExt(srcs)[Ext(srcs[i])] == srcs[i]
  {
    if i < |srcs| - 1 {
      var init := srcs[..|srcs| - 1];
      assert init[i] == srcs[i];
      assert forall j :: i < j < |init| ==> init[j] == srcs[j];
      ByExtLastWins(init, i);
    }
  }

  /**
   * The sources map: `main` is the download source, every other key is the
   * extension of some HTML5 source and maps to the last source with that
   * extension.
   */
  lemma SourcesMapSpec(srcs: seq<string>, source: string)
    ensures "main" in SourcesMap(srcs, source) && SourcesMap(srcs, source)["main"] == source
    ensures forall k :: k in SourcesMap(srcs, source) <==> k == "main" || exists i :: 0 <= i < |srcs| && Ext(srcs[i]) == k
    ensures forall i :: 0 <= i < |srcs| && Ext(srcs[i]) != "main" && (forall j :: i < j < |srcs| ==> Ext(srcs[j]) != Ext(srcs[i])) ==>
              SourcesMap(srcs, source)[Ext(srcs[i])] == srcs[i]
  {
    ByExtKeys(srcs);
    forall i | 0 <= i < |srcs| && Ext(srcs[i]) != "main" && (forall j :: i < j < |srcs| ==> Ext(srcs[j]) != Ext(srcs[i]))
      ensures SourcesMap(srcs, source)[Ext(srcs[i])] == srcs[i]
    {
      ByExtLastWins(srcs, i);
    }
  }

  /** A name ending in `.` and a `.`-free extension has that extension. */
  lemma {:induction false} ExtAfterDot(stem: string, ext: string)
    requires '.' !in ext
    ensures Ext(stem + ['.'] + ext) == ext
    decreases |ext|
  {
    var name := stem + ['.'] + ext;
    assert name[|stem|] == '.';
    if ext != [] {
      assert name[..|name| - 1] == stem + ['.'] + ext[..|ext| - 1];
      ExtAfterDot(stem, ext[..|ext| - 1]);
      assert ext[..|ext| - 1] + [ext[|ext| - 1]] == ext;
    }
  }

  /** The module's test data: three encodings of one lecture, keyed `mp4`, `webm` and `ogv`, and `main` the first. */
  lemma SourcesExample(stem: string)
    ensures SourcesMap([stem + ".mp4", stem + ".webm", stem + ".ogv"], stem + ".mp4") ==
            map["mp4" := stem + ".mp4", "webm" := stem + ".webm", "ogv" := stem + ".ogv", "main" := stem + ".mp4"]
  {
    var mp4, webm, ogv := stem + ".mp4", stem + ".webm", stem + ".ogv";
    assert Ext(mp4) == "mp4" by {
      assert mp4 == stem + ['.'] + "mp4";
      ExtAfterDot(stem, "mp4");
    }
    assert Ext(webm) == "webm" by {
      assert webm == stem + ['.'] + "webm";
      ExtAfterDot(stem, "webm");
    }
    assert Ext(ogv) == "ogv" by {
      assert ogv == stem + ['.'] + "ogv";
      ExtAfterDot(stem, "ogv");
    }
    var srcs := [mp4, webm, ogv];
    assert srcs[..2][..1] == [mp4] && [mp4][..0] == [];
    assert ByExt([mp4]) == map["mp4" := mp4];
    assert srcs[..2] == [mp4, webm];
    assert ByExt(srcs[..2]) == map["mp4" := mp4, "webm" := webm];
    assert ByExt(srcs) == map["mp4" := mp4, "webm" := webm, "ogv" := ogv];
  }
}
