/**
 * The YouTube stream string of a VideoAlpha module, "speed:id,speed:id,...":
 * `_parse_youtube` reads it into the four speed slots, and
 * `_create_youtube_string` writes the slots back.
 */
module VideoYoutube {
  import opened Wrappers
  import opened XmlTree

  /** The four playback speeds that have a YouTube id field: 0.75, 1.00, 1.25 and 1.50. */
  datatype Speed = Speed75 | Speed100 | Speed125 | Speed150

  /** The speeds in the order `_create_youtube_string` writes them. */
  const Speeds: seq<Speed> := [Speed75, Speed100, Speed125, Speed150]

  /** The speed in hundredths. */
  function Hundredths(s: Speed): nat
  {
    match s
    case Speed75 => 75
    case Speed100 => 100
    case Speed125 => 125
    case Speed150 => 150
  }

  /** The speed written with two decimals, as `'%.2f'` writes it: the keys of `_parse_youtube`'s dictionary. */
  function SpeedKey(s: Speed): string
  {
    match s
    case Speed75 => "0.75"
    case Speed100 => "1.00"
    case Speed125 => "1.25"
    case Speed150 => "1.50"
  }

  /** The YouTube id of each speed; `""` for a speed without a video. */
  datatype YoutubeIds = YoutubeIds(id75: string, id100: string, id125: string, id150: string)
  {
    function Get(s: Speed): string
    {
      match s
      case Speed75 => id75
      case Speed100 => id100
      case Speed125 => id125
      case Speed150 => id150
    }

    function With(s: Speed, id: string): (r: YoutubeIds)
      ensures r.Get(s) == id
      ensures forall t :: t != s ==> r.Get(t) == Get(t)
    {
      match s
      case Speed75 => this.(id75 := id)
      case Speed100 => this.(id100 := id)
      case Speed125 => this.(id125 := id)
      case Speed150 => this.(id150 := id)
    }
  }

  /** The dictionary `_parse_youtube` starts from: every speed present, with no id. */
  const NoIds := YoutubeIds("", "", "", "")

  /** Why a YouTube string could not be read. */
  datatype YoutubeError =
    | MissingId(video: string)   // a piece without `:` (`IndexError` on `pieces[1]`)
    | NotANumber(speed: string)  // a speed `float` rejects (`ValueError`)

  // ---------------------------------------------------------------------------
  // Reading a speed

  /** The value, in hundredths, of the digits after the decimal point, when they have no finer non-zero digit. */
  function FractionHundredths(f: string): Option<nat>
    requires AllDigits(f)
  {
    if exists i :: 2 <= i < |f| && f[i] != '0' then None
    else Some((if |f| >= 1 then (f[0] - '0') as nat * 10 else 0) + (if |f| >= 2 then (f[1] - '0') as nat else 0))
  }

  /**
   * The value in hundredths of an unsigned decimal literal — digits,
   * optionally a point and more digits, at least one digit in all — when it
   * is a whole number of hundredths.
   */
  function DecimalHundredths(s: string): Option<nat>
  {
    var parts := Split(s, '.');
    if |parts| == 1 && parts[0] != "" && AllDigits(parts[0]) then Some(DigitsValue(parts[0]) * 100)
    else if |parts| == 2 && parts[0] + parts[1] != "" && AllDigits(parts[0]) && AllDigits(parts[1]) then
      match FractionHundredths(parts[1])
      case None => None
      case Some(f) => Some(DigitsValue(parts[0]) * 100 + f)
    else None
  }

  /** `'%.2f' % float(piece)` when it names one of the four speeds. */
  function SpeedOf(piece: string): (r: Option<Speed>)
    ensures r.Some? ==> DecimalHundredths(piece) == Some(Hundredths(r.value))
    ensures r.None? ==> forall s :: DecimalHundredths(piece) != Some(Hundredths(s))
  {
    match DecimalHundredths(piece)
    case Some(n) => SpeedWithHundredths(n)
    case None => None
  }

  /** The speed of `n` hundredths, if it is one of the four. */
  function SpeedWithHundredths(n: nat): (r: Option<Speed>)
    ensures r.Some? ==> Hundredths(r.value) == n
    ensures r.None? ==> forall s :: Hundredths(s) != n
  {
    if n == 75 then Some(Speed75)
    else if n == 100 then Some(Speed100)
    else if n == 125 then Some(Speed125)
    else if n == 150 then Some(Speed150)
    else None
  }

  /** A literal with one point splits there. */
  lemma SplitDecimal(whole: string, frac: string)
    requires '.' !in whole && '.' !in frac
    ensures Split(whole + ['.'] + frac, '.') == [whole, frac]
  {
    SplitAfterPiece(whole, '.', frac);
    SplitNoSep(frac, '.');
  }

  /** The hundredths of a literal with a one-digit whole part and a two-digit fraction. */
  lemma DecimalOfKey(key: string)
    requires |key| == 4 && key[1] == '.' && AllDigits(key[..1]) && AllDigits(key[2..])
    ensures DecimalHundredths(key) == Some((key[0] - '0') as nat * 100 + (key[2] - '0') as nat * 10 + (key[3] - '0') as nat)
  {
    assert key == key[..1] + ['.'] + key[2..];
    SplitDecimal(key[..1], key[2..]);
    DigitsValueSmall(key[..1]);
  }

  /** Every key reads back as its own speed. */
  lemma SpeedOfKey(s: Speed)
    ensures SpeedOf(SpeedKey(s)) == Some(s)
  {
    DecimalOfKey(SpeedKey(s));
  }

  /** The hundredths of a literal with one digit before and one after the point. */
  lemma OneDecimal(w: char, f: char)
    requires '0' <= w <= '9' && '0' <= f <= '9'
    ensures DecimalHundredths([w, '.', f]) == Some((w - '0') as nat * 100 + (f - '0') as nat * 10)
  {
    assert [w, '.', f] == [w] + ['.'] + [f];
    SplitDecimal([w], [f]);
    DigitsValueSmall([w]);
  }

  /** The hundredths of a one-digit whole number. */
  lemma OneDigit(w: char)
    requires '0' <= w <= '9'
    ensures DecimalHundredths([w]) == Some((w - '0') as nat * 100)
  {
    SplitNoSep([w], '.');
    DigitsValueSmall([w]);
  }

  /** Other spellings of the speeds land on the same keys, as `'%.2f'` normalises them. */
  lemma SpeedSpellings()
    ensures SpeedOf("1.0") == Some(Speed100)
    ensures SpeedOf("1.5") == Some(Speed150)
    ensures SpeedOf("1") == Some(Speed100)
    ensures SpeedOf("2.0") == None
    ensures SpeedOf("fast") == None
  {
    DecimalSpelling('1', '0');
    DecimalSpelling('1', '5');
    DecimalSpelling('2', '0');
    WholeSpelling('1');
    assert SpeedOf("fast") == None by {
      SplitNoSep("fast", '.');
      assert !AllDigits("fast") by { assert "fast"[0] == 'f'; }
    }
  }

  /** The speed of a literal with one digit before and one after the point. */
  lemma DecimalSpelling(w: char, f: char)
    requires '0' <= w <= '9' && '0' <= f <= '9'
    ensures SpeedOf([w, '.', f]) == SpeedWithHundredths((w - '0') as nat * 100 + (f - '0') as nat * 10)
  {
    OneDecimal(w, f);
  }

  /** The speed of a one-digit whole number. */
  lemma WholeSpelling(w: char)
    requires '0' <= w <= '9'
    ensures SpeedOf([w]) == SpeedWithHundredths((w - '0') as nat * 100)
  {
    OneDigit(w);
  }

  // ---------------------------------------------------------------------------
  // _parse_youtube

  /**
   * One `speed:id` piece: its id is the text between the first and second `:`
   * (a missing `:` raises before the speed is read), stored under its speed.
   * A number that is none of the four speeds names a key no field reads, so
   * the piece reads as no speed.
   */
  function ParsePiece(video: string): (r: Result<(Option<Speed>, string), YoutubeError>)
    ensures r.Ok? ==> ':' !in r.value.1
  {
    var pieces := Split(video, ':');
    if |pieces| < 2 then Err(MissingId(video))
    else if DecimalHundredths(pieces[0]).None? then Err(NotANumber(pieces[0]))
    else Ok((SpeedOf(pieces[0]), pieces[1]))
  }

  /** The dictionary after the first pieces, in order, each later piece overwriting its speed; the first error stops it. */
  function FillIds(videos: seq<string>): Result<YoutubeIds, YoutubeError>
  {
    if videos == [] then Ok(NoIds)
    else
      match FillIds(videos[..|videos| - 1])
      case Err(e) => Err(e)
      case Ok(ids) =>
        match ParsePiece(videos[|videos| - 1])
        case Err(e) => Err(e)
        case Ok(p) => Ok(if p.0.Some? then ids.With(p.0.value, p.1) else ids)
  }

  /** `_parse_youtube(data)`: every speed with no id for `""`, and otherwise the pieces between commas, in order. */
  function YoutubeOf(data: string): Result<YoutubeIds, YoutubeError>
  {
    if data == "" then Ok(NoIds) else FillIds(Split(data, ','))
  }

  /** An error in the first pieces is the error of the whole string. */
  lemma {:induction false} FillIdsErrorStays(videos: seq<string>, k: nat)
    requires k <= |videos| && FillIds(videos[..k]).Err?
    ensures FillIds(videos) == FillIds(videos[..k])
    decreases |videos| - k
  {
    if k == |videos| {
      assert videos[..k] == videos;
    } else {
      assert videos[..k + 1][..k] == videos[..k];
      FillIdsErrorStays(videos, k + 1);
    }
  }

  /** `_parse_youtube`, with the loop that fills `ret`. */
  method ParseYoutube(data: string) returns (r: Result<YoutubeIds, YoutubeError>)
    ensures r == YoutubeOf(data)
  {
    var ret := NoIds;
    if data == "" {
      return Ok(ret);
    }
    var videos := Split(data, ',');
    for k := 0 to |videos|
      invariant FillIds(videos[..k]) == Ok(ret)
    {
      assert videos[..k + 1][..k] == videos[..k];
      var pieces := Split(videos[k], ':');
      if |pieces| < 2 {
        FillIdsErrorStays(videos, k + 1);
        return Err(MissingId(videos[k]));
      }
      if DecimalHundredths(pieces[0]).None? {
        FillIdsErrorStays(videos, k + 1);
        return Err(NotANumber(pieces[0]));
      }
      var speed := SpeedOf(pieces[0]);
      if speed.Some? {
        ret := ret.With(speed.value, pieces[1]);
      }
    }
    assert videos[..|videos|] == videos;
    r := Ok(ret);
  }

  /** The string is read exactly when every piece is. */
  lemma {:induction false} FillIdsOk(videos: seq<string>)
    ensures FillIds(videos).Ok? <==> forall i :: 0 <= i < |videos| ==> ParsePiece(videos[i]).Ok?
  {
    if videos != [] {
      var init := videos[..|videos| - 1];
      FillIdsOk(init);
      assert forall i :: 0 <= i < |init| ==> init[i] == videos[i];
    }
  }

  /** The speed a piece names, when it can be read. */
  function PieceSpeed(video: string): Option<Speed>
  {
    match ParsePiece(video)
    case Ok(p) => p.0
    case Err(_) => None
  }

  /** A speed that no piece names keeps no id. */
  lemma {:induction false} FillIdsUnnamed(videos: seq<string>, s: Speed)
    requires FillIds(videos).Ok?
    requires forall i :: 0 <= i < |videos| ==> PieceSpeed(videos[i]) != Some(s)
    ensures FillIds(videos).value.Get(s) == ""
  {
    if videos != [] {
      var init := videos[..|videos| - 1];
      assert forall i :: 0 <= i < |init| ==> init[i] == videos[i];
      FillIdsUnnamed(init, s);
    }
  }

  /** A speed holds the id of the last piece naming it. */
  lemma {:induction false} FillIdsLast(videos: seq<string>, s: Speed, i: nat)
    requires FillIds(videos).Ok?
    requires i < |videos| && PieceSpeed(videos[i]) == Some(s)
    requires forall k :: i < k < |videos| ==> PieceSpeed(videos[k]) != Some(s)
    ensures ParsePiece(videos[i]) == Ok((Some(s), FillIds(videos).value.Get(s)))
  {
    var init := videos[..|videos| - 1];
    var last := videos[|videos| - 1];
    assert ParsePiece(last).Ok?;
    if i < |videos| - 1 {
      assert forall k :: 0 <= k < |init| ==> init[k] == videos[k];
      FillIdsLast(init, s, i);
    }
  }

  /** A piece `speed:id` whose speed and id hold no `:` splits into those two. */
  lemma SplitPiece(speed: string, id: string)
    requires ':' !in speed && ':' !in id
    ensures Split(speed + ":" + id, ':') == [speed, id]
  {
    SplitAfterPiece(speed, ':', id);
    SplitNoSep(id, ':');
  }

  /** A piece whose speed is a number reads as that speed's slot, or as none. */
  lemma ParseNumberPiece(speed: string, id: string)
    requires ':' !in speed && ':' !in id && DecimalHundredths(speed).Some?
    ensures ParsePiece(speed + ":" + id) == Ok((SpeedOf(speed), id))
  {
    SplitPiece(speed, id);
  }

  /** A number that is no declared speed leaves every slot as it was. */
  lemma OtherSpeedIgnored()
    ensures FillIds(["1.0" + ":" + "abc", "2.0" + ":" + "xyz"]) == Ok(NoIds.With(Speed100, "abc"))
  {
    var videos := ["1.0" + ":" + "abc", "2.0" + ":" + "xyz"];
    OneDecimal('1', '0');
    OneDecimal('2', '0');
    assert "1.0" == ['1', '.', '0'] && "2.0" == ['2', '.', '0'];
    ParseNumberPiece("1.0", "abc");
    ParseNumberPiece("2.0", "xyz");
    assert videos[..1][..0] == [];
    assert videos[..1] == ["1.0" + ":" + "abc"];
    assert SpeedOf("1.0") == Some(Speed100) && SpeedOf("2.0") == None;
    assert FillIds(videos[..1]) == Ok(NoIds.With(Speed100, "abc"));
  }

  /** A speed that is no number is an error, and so is a piece without a `:`, reported before its speed is looked at. */
  lemma BadPieces()
    ensures FillIds(["fast" + ":" + "abc"]) == Err(NotANumber("fast"))
    ensures FillIds(["fast"]) == Err(MissingId("fast"))
  {
    assert DecimalHundredths("fast").None? by {
      SplitNoSep("fast", '.');
      assert !AllDigits("fast") by { assert "fast"[0] == 'f'; }
    }
    NotANumberPiece("fast", "abc");
    FillOneError("fast" + ":" + "abc");
    SplitNoSep("fast", ':');
    FillOneError("fast");
  }

  /** A piece whose speed is no number is an error naming that speed. */
  lemma NotANumberPiece(speed: string, id: string)
    requires ':' !in speed && ':' !in id && DecimalHundredths(speed).None?
    ensures ParsePiece(speed + ":" + id) == Err(NotANumber(speed))
  {
    SplitPiece(speed, id);
  }

  /** A single piece that cannot be read is the error of the whole list. */
  lemma FillOneError(video: string)
    requires ParsePiece(video).Err?
    ensures FillIds([video]) == Err(ParsePiece(video).error)
  {
    assert [video][..0] == [];
  }

  // ---------------------------------------------------------------------------
  // _create_youtube_string

  /** The `speed:id` pair of one speed. */
  function Entry(ids: YoutubeIds, s: Speed): string
  {
    SpeedKey(s) + ":" + ids.Get(s)
  }

  /** The pair of one speed, if it has an id. */
  function Pair(ids: YoutubeIds, s: Speed): seq<string>
  {
    if ids.Get(s) != "" then [Entry(ids, s)] else []
  }

  /** The pairs of the speeds that have an id, in speed order. */
  function Entries(ids: YoutubeIds): seq<string>
  {
    Pair(ids, Speed75) + Pair(ids, Speed100) + Pair(ids, Speed125) + Pair(ids, Speed150)
  }

  /** `_create_youtube_string(module)`: the pairs of the speeds with an id, joined by commas. */
  function CreateYoutubeString(ids: YoutubeIds): string
  {
    Join(Entries(ids), ',')
  }

  /** Ids that a YouTube string can carry: no `,` and no `:`. */
  predicate Separable(ids: YoutubeIds)
  {
    forall s :: ',' !in ids.Get(s) && ':' !in ids.Get(s)
  }

  /** The string is empty exactly when no speed has an id. */
  lemma CreateEmpty(ids: YoutubeIds)
    ensures CreateYoutubeString(ids) == "" <==> ids == NoIds
  {
    var e := Entries(ids);
    if ids != NoIds {
      assert e != [];
      assert |e[0]| > 0;
      if |e| > 1 {
        assert Join(e, ',') == e[0] + [','] + Join(e[1..], ',');
      }
    }
  }

  /** A written pair reads back as its speed and id. */
  lemma ParseEntry(ids: YoutubeIds, s: Speed)
    requires ':' !in ids.Get(s)
    ensures ParsePiece(Entry(ids, s)) == Ok((Some(s), ids.Get(s)))
  {
    var key := SpeedKey(s);
    assert ':' !in key;
    assert Entry(ids, s) == key + [':'] + ids.Get(s);
    SplitAfterPiece(key, ':', ids.Get(s));
    SplitNoSep(ids.Get(s), ':');
    SpeedOfKey(s);
  }

  /** Reading one more speed's pair sets that speed's id. */
  lemma FillPair(before: seq<string>, ids: YoutubeIds, s: Speed, acc: YoutubeIds)
    requires ':' !in ids.Get(s) && FillIds(before) == Ok(acc)
    ensures FillIds(before + Pair(ids, s)) == Ok(if ids.Get(s) != "" then acc.With(s, ids.Get(s)) else acc)
  {
    if ids.Get(s) != "" {
      var after := before + Pair(ids, s);
      assert after[..|after| - 1] == before;
      ParseEntry(ids, s);
    } else {
      assert before + Pair(ids, s) == before;
    }
  }

  /**
   * The YouTube part of the export/import round trip: reading the string
   * written for ids that carry no separator gives every speed its id back,
   * and no id to the speeds that had none.
   */
  lemma YoutubeRoundTrip(ids: YoutubeIds)
    requires Separable(ids)
    ensures YoutubeOf(CreateYoutubeString(ids)) == Ok(ids)
  {
    CreateEmpty(ids);
    if ids != NoIds {
      FillEntries(ids);
      EntriesSeparable(ids);
      SplitJoin(Entries(ids), ',');
    }
  }

  /** Reading the written pairs one by one fills every slot back. */
  lemma FillEntries(ids: YoutubeIds)
    requires Separable(ids)
    ensures FillIds(Entries(ids)) == Ok(ids)
  {
    var p1 := Pair(ids, Speed75);
    var p2 := p1 + Pair(ids, Speed100);
    var p3 := p2 + Pair(ids, Speed125);
    assert [] + p1 == p1;
    assert ':' !in ids.Get(Speed75) && ':' !in ids.Get(Speed100) && ':' !in ids.Get(Speed125) && ':' !in ids.Get(Speed150);
    FillPair([], ids, Speed75, NoIds);
    var a1 := if ids.id75 != "" then NoIds.With(Speed75, ids.id75) else NoIds;
    FillPair(p1, ids, Speed100, a1);
    var a2 := if ids.id100 != "" then a1.With(Speed100, ids.id100) else a1;
    FillPair(p2, ids, Speed125, a2);
    var a3 := if ids.id125 != "" then a2.With(Speed125, ids.id125) else a2;
    FillPair(p3, ids, Speed150, a3);
  }

  /** No written pair of separable ids holds a comma. */
  lemma EntriesSeparable(ids: YoutubeIds)
    requires Separable(ids)
    ensures forall i :: 0 <= i < |Entries(ids)| ==> ',' !in Entries(ids)[i]
  {
    forall s: Speed
      ensures forall x :: x in Pair(ids, s) ==> ',' !in x
    {
      assert ',' !in SpeedKey(s);
      assert ',' !in ids.Get(s);
      assert Entry(ids, s) == SpeedKey(s) + ":" + ids.Get(s);
    }
    var e := Entries(ids);
    forall i | 0 <= i < |e|
      ensures ',' !in e[i]
    {
      assert e[i] in e;
    }
  }

  /** The stream string of the module's test data: all four speeds, in order. */
  lemma CreateExample()
    ensures CreateYoutubeString(YoutubeIds("jNCf2gIqpeE", "ZwkTiUPN0mg", "rsq9auxASqI", "kMyNdzVHHgg")) ==
            "0.75:jNCf2gIqpeE" + "," + "1.00:ZwkTiUPN0mg" + "," + "1.25:rsq9auxASqI" + "," + "1.50:kMyNdzVHHgg"
  {
    var ids := YoutubeIds("jNCf2gIqpeE", "ZwkTiUPN0mg", "rsq9auxASqI", "kMyNdzVHHgg");
    var e := Entries(ids);
    assert e == ["0.75:jNCf2gIqpeE", "1.00:ZwkTiUPN0mg", "1.25:rsq9auxASqI", "1.50:kMyNdzVHHgg"] by {
      assert Entry(ids, Speed75) == "0.75:jNCf2gIqpeE";
      assert Entry(ids, Speed100) == "1.00:ZwkTiUPN0mg";
      assert Entry(ids, Speed125) == "1.25:rsq9auxASqI";
      assert Entry(ids, Speed150) == "1.50:kMyNdzVHHgg";
    }
    JoinFour(e, ',');
  }

  /** Joining four pieces puts the separator between each two. */
  lemma JoinFour(e: seq<string>, sep: char)
    requires |e| == 4
    ensures Join(e, sep) == e[0] + [sep] + e[1] + [sep] + e[2] + [sep] + e[3]
  {
    assert Join(e[3..], sep) == e[3];
    assert Join(e[2..], sep) == e[2] + [sep] + e[3];
  }

  /** A single speed with an id is written alone, and no id at all writes the empty string. */
  lemma CreateSparse()
    ensures CreateYoutubeString(YoutubeIds("", "ZwkTiUPN0mg", "", "")) == "1.00:ZwkTiUPN0mg"
    ensures CreateYoutubeString(NoIds) == ""
  {
    var one := YoutubeIds("", "ZwkTiUPN0mg", "", "");
    assert Entry(one, Speed100) == "1.00:ZwkTiUPN0mg";
    assert Entries(one) == ["1.00:ZwkTiUPN0mg"];
    assert Entries(NoIds) == [];
  }

  // ---------------------------------------------------------------------------
  // The field a speed is stored in

  /** `youtube_id_` and the speed key with one trailing `0` dropped and every `.` made `_`. */
  function FieldName(key: string): string
  {
    var normalized := if |key| > 0 && key[|key| - 1] == '0' then key[..|key| - 1] else key;
    "youtube_id_" + seq(|normalized|, i requires 0 <= i < |normalized| => if normalized[i] == '.' then '_' else normalized[i])
  }

  /** The field each speed is read into: exactly the four declared fields, one per speed. */
  lemma FieldNamesDeclared()
    ensures FieldName(SpeedKey(Speed75)) == "youtube_id_0_75"
    ensures FieldName(SpeedKey(Speed100)) == "youtube_id_1_0"
    ensures FieldName(SpeedKey(Speed125)) == "youtube_id_1_25"
    ensures FieldName(SpeedKey(Speed150)) == "youtube_id_1_5"
  {
    assert "1.00"[..3] == "1.0";
    assert "1.50"[..3] == "1.5";
  }
}
