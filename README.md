# Content tests and VideoAlpha XML, modelled in Dafny

This project models two pieces of logic from the edX platform and proves
properties of them.

**Content tests** (`cms/djangoapps/content_testing/models.py`). A
`ContentTest` stores a set of answers for one capa problem. It keeps one
`Response` record per responder of the problem, and each record keeps one
`Input` row per input field. The model covers these parts:

- the XML fingerprint (`remove_ids`, `remove_xml_ids`, `hash_xml`);
- the cheap structural check and the hash check (`_still_matches`,
  `_still_hashes_match`);
- the hash reassignment (`_reassign_hashes`);
- the hash-based rematch (`_rematch`, `Response.rematch`, `_create_child`);
- rebuilding the answer dictionary from the records, and writing a
  dictionary back into them (`_remake_dict_from_children`,
  `_update_dictionary`);
- the verdict rules (`_make_verdict`);
- the object's own life cycle (`save`, `run`, `rematch_if_necessary`),
  including the preview cache (`CACHE_ON`, `CACHE_MODULESTORE`).

The database rows are held in memory. `ContentTest` is a class whose
`responses` field is a sequence of record values. The problem is a sequence
of `Responder` values. The hash of a stripped tree is a function parameter
`hasher`, so every result holds for any hash function. Nothing assumes the
hash is injective.

**VideoAlpha XML** (`common/lib/xmodule/xmodule/videoalpha_module.py`). The
model covers these parts:

- the YouTube stream string, read by `_parse_youtube` and written by
  `_create_youtube_string`;
- `_parse_time`, and the `str(timedelta)` text that export writes;
- `_parse_video_xml`, which turns a `<videoalpha>` element into model data;
- the attributes and children that `export_to_xml` writes;
- the extension-to-source map of `get_html`.

The export/import round trip promised at lines 228-234 is proved as far as
it holds. It needs these conditions:

- the YouTube ids contain no `,` and no `:`;
- both times are shorter than a day.

Under those conditions, every field value comes back with two exceptions:

- an empty display name comes back as the default, "Video Alpha";
- the download source comes back as the first HTML5 source, or as empty
  when there is none.

A start time of a day or more is written as `1 day, 0:00:00`, which
`_parse_time` rejects. Such a module cannot be re-imported at all.

Files:

- `wrappers.dfy`: `Option` and `Result`.
- `xml_tree.dfy`: an XML element as a value, lxml's `get`, `findall` and
  `find`, Python's `str.split` and `str.join` on one character, and
  digit strings.
- `xml_hash.dfy`: the fingerprint.
- `content_records.dfy`: the records and the reconciliation rules.
- `content_test.dfy`: the verdict and the `ContentTest` class.
- `video_youtube.dfy`, `video_time.dfy`, `video_alpha.dfy`: the codec.
- `video_round_trip.dfy`: the export/import round trip.

Where the code and its documentation disagree, the model follows the code.
The export/import round trip is not the identity, as described above.

## Model

| member | source | states |
|---|---|---|
| XmlHash.KeptAttrsExact | cms/djangoapps/content_testing/models.py:34-40 | an attribute survives `remove_ids` iff it was there and its key neither ends in `id` nor is `size`; nothing is added |
| XmlHash.KeptAttrsIdempotent | cms/djangoapps/content_testing/models.py:34-40 | stripping already stripped attributes changes nothing |
| XmlHash.RemoveIds | cms/djangoapps/content_testing/models.py:34-40 | the loop that pops keys leaves exactly the kept attributes, in their order |
| XmlHash.RemoveXmlIds | cms/djangoapps/content_testing/models.py:25-31 | the recursive strip gives the tree with id-like attributes removed at every depth |
| XmlHash.StripTreeRemovesAll | cms/djangoapps/content_testing/models.py:25-31 | after the strip no id-like attribute is left anywhere in the tree |
| XmlHash.StripTreeIdempotent | cms/djangoapps/content_testing/models.py:25-31 | stripping twice is stripping once |
| XmlHash.StripIgnoresIds | cms/djangoapps/content_testing/models.py:25-40 | trees that differ only in id-like attributes, at any depth, strip to the same tree |
| XmlHash.HashIgnoresIds | cms/djangoapps/content_testing/models.py:15-22 | such trees get the same hash, whatever the hash function; the argument is never changed, since the model works on values |
| XmlHash.HashExample | cms/djangoapps/content_testing/tests/test_model.py:373-381 | `<root root_id="3"><child id="234"/></root>` hashes like `<root><child/></root>` |
| ContentRecords.LastWithId | cms/djangoapps/content_testing/models.py:551-558 | the index `responders_by_id` resolves an id to: none iff no responder has that id, otherwise the last responder with it |
| ContentRecords.FindResponder | cms/djangoapps/content_testing/models.py:551-558 | `capa_response`: a responder with that id (the last one), or the `KeyError` case exactly when there is none |
| ContentRecords.NewRecordShape | cms/djangoapps/content_testing/models.py:468-480 | a record created without a dictionary has the responder's id and hash, one input per field with that field's ids, and only blank answers |
| ContentRecords.CreateInputs | cms/djangoapps/content_testing/models.py:533-549 | `create_children` makes one input per field, in order, with the field's three ids and the dictionary's answer or `''` |
| ContentRecords.NewResponse | cms/djangoapps/content_testing/models.py:468-480 | `_create_child` builds the record `NewRecord` describes |
| ContentRecords.ResyncedKeepsAnswers | cms/djangoapps/content_testing/models.py:506-531 | a re-synced record keeps its hash, its input count and every answer and input index; when its id differs, each zipped input takes its field's ids |
| ContentRecords.RematchResponse | cms/djangoapps/content_testing/models.py:506-531 | `Response.rematch` returns early when the ids already agree, and otherwise re-syncs the zipped inputs in `input_index` order |
| ContentRecords.FirstStale | cms/djangoapps/content_testing/models.py:302-314 | where the walk of `_still_hashes_match` stops: every earlier record is current and this one is not |
| ContentRecords.HashesMatchExact | cms/djangoapps/content_testing/models.py:302-314 | `_still_hashes_match` is true iff every record's id names a responder whose fresh hash equals the stored one |
| ContentRecords.StructureMatchesNoKeyError | cms/djangoapps/content_testing/models.py:268-272 | once `_still_matches` holds, `_still_hashes_match` cannot raise `KeyError` |
| ContentRecords.FirstUnresolved | cms/djangoapps/content_testing/models.py:570-577 | the first record whose id names no responder, where `reassign_hashes` raises |
| ContentRecords.ReassignAll | cms/djangoapps/content_testing/models.py:353-359 | the loop of `_reassign_hashes` gives the records `Reassigned` describes, stopping at the first `KeyError` |
| ContentRecords.ReassignedRefreshesHashes | cms/djangoapps/content_testing/models.py:570-585 | when the structure still matches, the reassignment raises nothing, keeps the count, ids and inputs, and afterwards every hash matches |
| ContentRecords.CollectAnswers | cms/djangoapps/content_testing/models.py:442-451 | the nested loop builds the dictionary of all inputs, record by record, later inputs winning |
| ContentRecords.AddAnswersAppend | cms/djangoapps/content_testing/models.py:448-451 | filling the dictionary from two runs of inputs is filling it from their concatenation |
| ContentRecords.RemakeDictFlat | cms/djangoapps/content_testing/models.py:448-451 | the rebuilt dictionary is the dictionary of all input rows taken in one run |
| ContentRecords.AllInputsExact | cms/djangoapps/content_testing/models.py:449-450 | the inputs walked are exactly the rows of the records |
| ContentRecords.AddAnswersExact | cms/djangoapps/content_testing/models.py:448-451 | the dictionary's keys are exactly the input ids, and an input whose id no later input repeats gives its own answer |
| ContentRecords.FirstMissing | cms/djangoapps/content_testing/models.py:488-489 | the first input whose id the new dictionary lacks, where `_update_dictionary` raises |
| ContentRecords.FirstFailing | cms/djangoapps/content_testing/models.py:488-489 | the first record holding such an input |
| ContentRecords.UpdateInputAnswers | cms/djangoapps/content_testing/models.py:488-490 | the write-back loop over one record's inputs |
| ContentRecords.UpdateAllAnswers | cms/djangoapps/content_testing/models.py:482-490 | the write-back loop over all inputs, stopping at the first `KeyError` |
| ContentRecords.UpdateInputsExact | cms/djangoapps/content_testing/models.py:488-490 | the write-back of one record succeeds iff every id is in the dictionary; on success every answer is the dictionary's value and ids and indices are unchanged |
| ContentRecords.UpdateAnswersExact | cms/djangoapps/content_testing/models.py:482-490 | the same for all records: success iff the dictionary covers every input, and then each answer is the dictionary's value with nothing else changed |
| ContentRecords.RemakeDictCovers | cms/djangoapps/content_testing/models.py:442-455 | the rebuilt dictionary covers every input, so saving it back cannot raise |
| ContentRecords.UpdateAnswersIdentity | cms/djangoapps/content_testing/models.py:482-490 | a dictionary that already holds every input's own answer changes no record |
| ContentRecords.RemakeDictRoundTrip | cms/djangoapps/content_testing/models.py:442-455 | with distinct input ids, writing the rebuilt dictionary back changes no answer |
| ContentRecords.Hashes | cms/djangoapps/content_testing/models.py:330-331 | the fresh hash of each responder, in document order |
| ContentRecords.HashIndex | cms/djangoapps/content_testing/models.py:324-326 | `model_dict` holds exactly the stored hashes, each mapped to the last record with that hash |
| ContentRecords.BuildHashIndex | cms/djangoapps/content_testing/models.py:324-326 | the first loop of `_rematch` builds that `model_dict` |
| ContentRecords.FillIndex | cms/djangoapps/content_testing/models.py:324-326 | after `n` rounds of the loop, `model_dict` is the index of the first `n` records |
| ContentRecords.IndexUpToExact | cms/djangoapps/content_testing/models.py:324-326 | after the first `n` records, every hash among them is a key, and each key maps to the last of those records carrying it |
| ContentRecords.FirstIndex | cms/djangoapps/content_testing/models.py:330-335 | the first responder with a given hash, or none iff no responder has it |
| ContentRecords.FirstWithHash | cms/djangoapps/content_testing/models.py:330-335 | a responder finds its hash still in `model_dict` iff no earlier responder had that hash |
| ContentRecords.ConsumedStep | cms/djangoapps/content_testing/models.py:333-343 | one more responder claims at most the record under its own hash, and only when it is the first with that hash |
| ContentRecords.KeptHashesDistinct | cms/djangoapps/content_testing/models.py:324-326 | since `model_dict` holds only the last record inserted under each hash, no two records that survive the rematch share a hash |
| ContentRecords.AssignNext | cms/djangoapps/content_testing/models.py:330-343 | one turn of the second loop keeps its invariants: `model_dict` holds the unclaimed hashes, claimed records are re-synced, `used_models` lists them and new blank records are appended in order |
| ContentRecords.AssignResponders | cms/djangoapps/content_testing/models.py:328-343 | after the second loop the used records are exactly the survivors, each re-synced with its first responder, and the new records are the blank ones of the non-consuming responders |
| ContentRecords.DropUnused | cms/djangoapps/content_testing/models.py:345-348 | the third loop keeps exactly the used records, in their original order |
| ContentRecords.KeptIndicesExact | cms/djangoapps/content_testing/models.py:345-348 | the kept records are the re-synced records at the surviving indices, in increasing order |
| ContentRecords.FreshIndicesExact | cms/djangoapps/content_testing/models.py:342-343 | the new records are the blank records of the responders that consumed nothing, in document order |
| ContentRecords.KeptCount | cms/djangoapps/content_testing/models.py:345-348 | as many records are kept as there are surviving indices |
| ContentRecords.FreshCount | cms/djangoapps/content_testing/models.py:330-343 | the responders that consume a record and those that get a new one add up to the responder count |
| ContentRecords.SurvivorsMatchConsumers | cms/djangoapps/content_testing/models.py:321-343 | surviving records and consuming responders correspond one to one |
| ContentRecords.RematchedCount | cms/djangoapps/content_testing/models.py:316-348 | after `_rematch` there is exactly one record per responder |
| ContentRecords.RematchAppend | cms/djangoapps/content_testing/tests/test_model.py:419-441 | a response appended at the end keeps the old record unchanged and adds a blank record for the new one |
| ContentRecords.RematchInsert | cms/djangoapps/content_testing/tests/test_model.py:443-491 | a response inserted before the old one: the old record keeps its answers and takes the new ids, and the inserted responder gets a blank record |
| ContentRecords.RematchChanged | cms/djangoapps/content_testing/tests/test_model.py:401-417 | a response whose XML changed (an input added) loses its answers: its record is replaced by a blank one |
| ContentTesting.VerdictRange | cms/djangoapps/content_testing/models.py:403-426 | the verdict is Pass, Fail or ERROR; ERROR iff grading raised and `ERROR` was not expected; when grading raised, Pass iff `ERROR` was expected |
| ContentTesting.VerdictExamples | cms/djangoapps/content_testing/tests/test_model.py:218-273 | the verdicts for right and wrong answers under both expectations, and for grading errors |
| ContentTesting.SaveRemadeDict | cms/djangoapps/content_testing/models.py:442-455 | saving the rebuilt dictionary never raises and, with distinct input ids and records present, leaves the records unchanged |
| ContentTesting.PreviewCache.constructor | cms/djangoapps/content_testing/models.py:43-44 | the cache starts off and empty |
| ContentTesting.ContentTest.constructor | cms/djangoapps/content_testing/models.py:72-85 | a missing dictionary becomes `{}`, and the given one is remembered for the comparison in `save` |
| ContentTesting.ContentTest.AssignResponseDict | cms/djangoapps/content_testing/models.py:176-183 | assigning a dictionary marks it for the write-back in the next save and changes nothing else |
| ContentTesting.ContentTest.MakeVerdict | cms/djangoapps/content_testing/models.py:403-426 | the loop searching for an `incorrect` grade computes `Verdict` |
| ContentTesting.ContentTest.CapaModule | cms/djangoapps/content_testing/models.py:122-143 | while caching is on, a cached module is served and a fresh one is stored under the key; with caching off nothing is stored |
| ContentTesting.ContentTest.UpdateDictionary | cms/djangoapps/content_testing/models.py:482-490 | every input takes its answer from the dictionary, stopping at the first missing id |
| ContentTesting.ContentTest.CreateChild | cms/djangoapps/content_testing/models.py:468-480 | one new record is appended and nothing else changes |
| ContentTesting.ContentTest.CreateChildren | cms/djangoapps/content_testing/models.py:457-466 | one record per responder is appended, in document order, with answers from the dictionary |
| ContentTesting.ContentTest.Save | cms/djangoapps/content_testing/models.py:161-193 | the verdict becomes `Not Run` unless the `dont_reset` keyword is present; a newly assigned, changed dictionary is written into the inputs, and a missing answer stops the save before the row is stored; records are created from the fetched problem when there are none, and a failed fetch leaves the row stored with no records |
| ContentTesting.ContentTest.Run | cms/djangoapps/content_testing/models.py:195-208 | a failure to fetch the problem raises out of `run` with nothing changed; otherwise the verdict is `Verdict` of the grade of the stored answers, it survives the save that follows, and the records, the saved flag and the dictionary are those the save leaves |
| ContentTesting.ContentTest.StillMatches | cms/djangoapps/content_testing/models.py:283-300 | `_still_matches` is true iff the counts agree and every record's id names a responder with as many fields as it has inputs |
| ContentTesting.ContentTest.StillHashesMatch | cms/djangoapps/content_testing/models.py:302-314 | the walk returns the result `HashesMatch` describes, including the `KeyError` of an unknown id |
| ContentTesting.ContentTest.ReassignHashes | cms/djangoapps/content_testing/models.py:353-359 | every record takes its responder's fresh hash, and nothing else changes |
| ContentTesting.ContentTest.RemakeDictFromChildren | cms/djangoapps/content_testing/models.py:442-455 | the dictionary becomes the one rebuilt from the records, the verdict is reset and the save succeeds |
| ContentTesting.ContentTest.Rematch | cms/djangoapps/content_testing/models.py:316-351 | the records become `Rematched` of the old ones, and the dictionary is rebuilt from them and saved |
| ContentTesting.ContentTest.RematchIfNecessary | cms/djangoapps/content_testing/models.py:250-279 | an unsaved test changes nothing, in the test or the cache; otherwise it rematches and saves, or only reassigns hashes, or changes nothing, and outside a rematch the answer dictionary and its pending flag are untouched; the cache ends off and empty on every exit, including a raising fetch |
| XmlTree.Get | common/lib/xmodule/xmodule/videoalpha_module.py:316 | `ele.get(key)`: none iff no attribute has the key, otherwise an attribute's value |
| XmlTree.FindAll | common/lib/xmodule/xmodule/videoalpha_module.py:314 | `findall(tag)` keeps exactly the children with that tag |
| XmlTree.FindAllAppend | common/lib/xmodule/xmodule/videoalpha_module.py:314 | `findall` over two runs of children is `findall` over the first followed by `findall` over the second, so the found children keep their document order |
| XmlTree.Find | common/lib/xmodule/xmodule/videoalpha_module.py:319 | `find(tag)` is the first such child, or none iff there is none |
| XmlTree.Split | common/lib/xmodule/xmodule/videoalpha_module.py:271-273 | `str.split(sep)` gives at least one piece, no piece holds the separator, and joining the pieces gives the string back |
| XmlTree.SplitJoin | common/lib/xmodule/xmodule/videoalpha_module.py:354-357 | pieces without the separator, once joined, split back into the same pieces |
| VideoYoutube.SpeedOfKey | common/lib/xmodule/xmodule/videoalpha_module.py:281 | each speed key written by `_create_youtube_string` reads back as its speed |
| VideoYoutube.SpeedSpellings | common/lib/xmodule/xmodule/videoalpha_module.py:274-281 | `1.0`, `1` and `1.5` name speeds; `2.0` and `fast` do not |
| VideoYoutube.ParsePiece | common/lib/xmodule/xmodule/videoalpha_module.py:273-281 | the id of a piece never contains `:` |
| VideoYoutube.ParseYoutube | common/lib/xmodule/xmodule/videoalpha_module.py:262-282 | the loop filling `ret` gives `YoutubeOf(data)` |
| VideoYoutube.FillIdsErrorStays | common/lib/xmodule/xmodule/videoalpha_module.py:272-281 | once a piece raises, the later pieces do not matter |
| VideoYoutube.FillIdsOk | common/lib/xmodule/xmodule/videoalpha_module.py:272-281 | parsing succeeds iff every piece parses |
| VideoYoutube.FillIdsUnnamed | common/lib/xmodule/xmodule/videoalpha_module.py:268 | a speed no piece names keeps `''` |
| VideoYoutube.FillIdsLast | common/lib/xmodule/xmodule/videoalpha_module.py:272-281 | a speed gets the id of the last piece that names it |
| VideoYoutube.ParseNumberPiece | common/lib/xmodule/xmodule/videoalpha_module.py:273-281 | a `speed:id` piece with an id free of `:` and a numeric speed gives that id under that speed |
| VideoYoutube.OtherSpeedIgnored | common/lib/xmodule/xmodule/videoalpha_module.py:281 | a piece at speed 2.0 sets none of the four speeds |
| VideoYoutube.BadPieces | common/lib/xmodule/xmodule/videoalpha_module.py:273-281 | a non-numeric speed raises, and so does a piece without `:` |
| VideoYoutube.CreateEmpty | common/lib/xmodule/xmodule/videoalpha_module.py:354-357 | the string is empty iff every id is empty |
| VideoYoutube.YoutubeRoundTrip | common/lib/xmodule/xmodule/videoalpha_module.py:262-282 | for ids without `,` or `:`, parsing the created string gives back every speed's id, `''` included |
| VideoYoutube.CreateExample | lms/djangoapps/courseware/tests/test_videoalpha_xml.py:29 | the four ids of the test data give `0.75:…,1.00:…,1.25:…,1.50:…` in that order |
| VideoYoutube.CreateSparse | common/lib/xmodule/xmodule/videoalpha_module.py:347-357 | empty ids are skipped, and no ids give `''` |
| VideoYoutube.FieldNamesDeclared | common/lib/xmodule/xmodule/videoalpha_module.py:54-77 | the normalised speed keys name exactly the declared fields `youtube_id_0_75`, `youtube_id_1_0`, `youtube_id_1_25` and `youtube_id_1_5` |
| VideoTime.ParseTime | common/lib/xmodule/xmodule/videoalpha_module.py:325-337 | `''` stays `''` and nothing else does; a time is at most 23:59:61; an error carries the rejected text |
| VideoTime.TimeRoundTrip | common/lib/xmodule/xmodule/videoalpha_module.py:241-242 | a time shorter than a day, written as `timedelta` writes it, parses back to its seconds |
| VideoTime.LongTimeRejected | common/lib/xmodule/xmodule/videoalpha_module.py:332 | a time of a day or more, written with its days, is rejected |
| VideoTime.TimeExamples | lms/djangoapps/courseware/tests/test_videoalpha_xml.py:31 | `01:00:03` is 3603 s and `01:00:10` is 3610 s; `''` is empty; `24:00:00` is rejected |
| VideoAlpha.IdField | common/lib/xmodule/xmodule/videoalpha_module.py:305-307 | the field of a speed is `youtube_id_` plus its key with one trailing `0` dropped and `.` as `_` |
| VideoAlpha.ParseFlag | common/lib/xmodule/xmodule/videoalpha_module.py:294 | `show_captions` converts iff it is `true` or `false`, to that boolean |
| VideoAlpha.SrcValues | common/lib/xmodule/xmodule/videoalpha_module.py:316 | one `src` value per `<source>` child, in order |
| VideoAlpha.AttrsErrorStays | common/lib/xmodule/xmodule/videoalpha_module.py:299-312 | once an attribute fails to convert, the later ones do not matter |
| VideoAlpha.ReadAttr | common/lib/xmodule/xmodule/videoalpha_module.py:300-312 | one attribute: `youtube` stores the non-empty ids, the three converted attributes store their values, and the rest are copied |
| VideoAlpha.StoreIds | common/lib/xmodule/xmodule/videoalpha_module.py:302-307 | the loop over the speeds stores each non-empty YouTube id under its speed's field and leaves the others unset, speed after speed |
| VideoAlpha.ReadSrcs | common/lib/xmodule/xmodule/videoalpha_module.py:316 | the comprehension over the `<source>` children |
| VideoAlpha.ParseVideoXml | common/lib/xmodule/xmodule/videoalpha_module.py:284-323 | the loops give `ModelDataOf(xml)`: attributes in order, then sources, first source and track |
| VideoAlpha.TruthyAttrsExact | common/lib/xmodule/xmodule/videoalpha_module.py:245-247 | exactly the truthy entries become attributes, as `str` of their value |
| VideoAlpha.ExportToXml | common/lib/xmodule/xmodule/videoalpha_module.py:236-257 | the loops build the element `Exported(f)`: truthy attributes, one `<source>` per HTML5 source in order, a `<track>` only for a non-empty track |
| VideoAlpha.SetAttrs | common/lib/xmodule/xmodule/videoalpha_module.py:245-247 | the attribute loop sets exactly the truthy candidates, in order, as `TruthyAttrs` does |
| VideoAlpha.AppendChildren | common/lib/xmodule/xmodule/videoalpha_module.py:249-257 | the child loop appends one `<source>` per HTML5 source in order, then a `<track>` only for a non-empty track |
| VideoAlpha.SourceChildren | common/lib/xmodule/xmodule/videoalpha_module.py:249-252 | one child per HTML5 source |
| VideoAlpha.Ext | common/lib/xmodule/xmodule/videoalpha_module.py:167 | `rpartition('.')[-1]`: the text after the last `.`, or the whole name without `.` |
| VideoAlpha.ByExtKeys | common/lib/xmodule/xmodule/videoalpha_module.py:168 | the keys are exactly the sources' extensions |
| VideoAlpha.ByExtLastWins | common/lib/xmodule/xmodule/videoalpha_module.py:168 | a source whose extension no later source shares is the value of that extension |
| VideoAlpha.SourcesMapSpec | common/lib/xmodule/xmodule/videoalpha_module.py:167-169 | `main` is the download source, the other keys are the extensions, and the last source per extension wins |
| VideoAlpha.ExtAfterDot | common/lib/xmodule/xmodule/videoalpha_module.py:167 | a name `stem.ext` with `ext` free of `.` has extension `ext` |
| VideoAlpha.SourcesExample | lms/djangoapps/courseware/tests/test_videoalpha_xml.py:73-78 | `.mp4`, `.webm` and `.ogv` sources map as in the test, with `main` the `.mp4` |
| VideoRoundTrip.HeadBack | common/lib/xmodule/xmodule/videoalpha_module.py:238-239 | the exported display name and captions flag read back as set |
| VideoRoundTrip.YoutubeBack | common/lib/xmodule/xmodule/videoalpha_module.py:240 | the exported YouTube string reads back as the four non-empty ids |
| VideoRoundTrip.TailBack | common/lib/xmodule/xmodule/videoalpha_module.py:241-243 | the exported times and subtitles read back as set, zero times and empty subtitles being absent |
| VideoRoundTrip.AttrsBack | common/lib/xmodule/xmodule/videoalpha_module.py:236-247 | all exported attributes read back as their settings |
| VideoRoundTrip.ChildrenBack | common/lib/xmodule/xmodule/videoalpha_module.py:249-257 | the exported `<source>` children are found in order, and the `<track>` iff the track is non-empty |
| VideoRoundTrip.NoSourceIsTrack | common/lib/xmodule/xmodule/videoalpha_module.py:319 | no `<source>` child is found as the track |
| VideoRoundTrip.SrcsBack | common/lib/xmodule/xmodule/videoalpha_module.py:316 | the `src` values read back are the HTML5 sources |
| VideoRoundTrip.ChildrenSettingsBack | common/lib/xmodule/xmodule/videoalpha_module.py:314-321 | the children read back as the sources, the first source and the track |
| VideoRoundTrip.ParseExported | common/lib/xmodule/xmodule/videoalpha_module.py:284-323 | parsing the exported element succeeds and gives the model data of the twelve settings |
| VideoRoundTrip.SettingBack | common/lib/xmodule/xmodule/videoalpha_module.py:299-323 | each field's value in that model data is its own setting's value, or absent when the setting is off |
| VideoRoundTrip.TextFieldsBack | common/lib/xmodule/xmodule/videoalpha_module.py:37-41 | display name, download source, track and subtitles come back as `Reimported` says |
| VideoRoundTrip.SettingsFieldsBack | common/lib/xmodule/xmodule/videoalpha_module.py:47-52 | the captions flag and both times come back unchanged |
| VideoRoundTrip.IdsBack | common/lib/xmodule/xmodule/videoalpha_module.py:54-77 | the four YouTube ids come back unchanged |
| VideoRoundTrip.SourcesBack | common/lib/xmodule/xmodule/videoalpha_module.py:96-101 | the HTML5 sources come back unchanged |
| VideoRoundTrip.ExportImport | common/lib/xmodule/xmodule/videoalpha_module.py:228-234 | export then import succeeds and gives every field back, except an empty display name (the default) and the download source (the first HTML5 source) |
| VideoRoundTrip.ReimportedIdentity | common/lib/xmodule/xmodule/videoalpha_module.py:228-234 | those two exceptions change nothing on a module that already has a display name and the first source as its download source |
| VideoRoundTrip.ExportImportIdentity | common/lib/xmodule/xmodule/videoalpha_module.py:228-234 | for such modules the promised identity holds |
| VideoRoundTrip.LongStartFails | common/lib/xmodule/xmodule/videoalpha_module.py:241 | a start time of a day or more makes the re-import raise |

## Left out

- The Django ORM is left out: creating, filtering, saving and deleting rows, and `super().save`. Rows are values in a sequence held by the `ContentTest` object. `order_by('input_index')` is the stored order of the inputs.
- The pickled/unpickled dual form of `response_dict` is left out. The dictionary is a map; a flag records that a new one was assigned and not yet saved.
- `capa_problem`, `construct_preview_module`, `modulestore`, `get_preview_module` and `_evaluate` are foreign framework calls. The problem enters as a sequence of responders, or as the error fetching it raised. Grading is a function parameter whose result is `None` when it raised.
- `ContentTesting.ContentTest.RematchIfNecessary`: an exception raised inside `_still_matches` or `_rematch` is not modelled, only one raised when fetching the problem. Those two steps cannot raise in the model.
- `ContentTesting.Lower`: lower-casing maps ASCII letters only. `should_be` is unicode text and `unicode.lower()` also maps non-ASCII letters, so an expectation such as `\u0130ncorrect` lower-cases to `incorrect` in the source but not in the model, where `Verdict` then gives `Fail` instead of `Pass`.
- `XmlHash.HashIgnoresIds`: `etree.tostring(...).__hash__()` is a parameter `hasher` applied to the stripped tree. Python's string hash, lxml serialisation and 64-bit hash width are not modelled.
- `render_to_string`, `_should_be_buttons`, `get_html_summary` and `get_html_form` render HTML, so they are left out.
- VideoAlpha framework code is left out:
  - template rendering in `get_html`;
  - the `MongoModuleStore` check;
  - `settings`, `handle_ajax` and `get_instance_state`;
  - `position`;
  - lxml parsing and serialisation.

  The element is a value, and its text form is not modelled.
- `VideoAlpha.Imported`: the XBlock field machinery is modelled as a lookup with the declared defaults. A stored value of the wrong type reads as the default.
- `VideoYoutube.SpeedOf`: `'%.2f' % float(s)` is modelled for plain decimal spellings whose fractional digits after the second are all zero (so `0.750` and `1.5000` are read as speeds).
  - Other float spellings (exponents, signs, spaces, `inf`, a non-zero digit after the hundredths such as `0.754`, which Python rounds to 0.75) raise `NotANumber` in the model.
  - A number that is none of the four speeds creates an extra dictionary key in the source, and so an undeclared `youtube_id_…` entry in the model data. The model drops it.
- `VideoAlpha.ParseFlag`: `json.loads` of `show_captions` is modelled for `true` and `false` only. Any other JSON value is a `BadFlag` error in the model.
- `VideoTime.ParseTime`: times are whole, non-negative seconds, as `nat`. `total_seconds()` returns a float, and `timedelta` can also hold fractional and negative durations. The model represents neither.
- Python 2 `str()` of non-ASCII text raises `UnicodeEncodeError` in `export_to_xml`. This is not modelled.
- `VideoAlpha.ExportToXml`: the attributes are written in the literal order of the `attrs` dictionary, not Python 2's hash order. Their order does not change what `_parse_video_xml` reads back.
- `common/lib/xmodule/xmodule/js/src/videoalpha/07_video_volume_control.js`, `08_video_speed_control.js` and `cms/static/js/views/settings/advanced_view.js` are browser widgets, so they are left out.
- `cms/djangoapps/contentstore/features/video-editor.py` and `common/lib/xmodule/xmodule/tests/test_videoalpha.py` are acceptance steps and editor context, not logic, so they are left out.
