# Frigate face pages, face detectors and detector model settings, modelled in Dafny

This project models the face-recognition parts of a Frigate fork: two web pages and the Python detector code behind them.

**The face-history page** (`Faces.jsx`) shows recorded faces in pages of 25. Each next page is requested `before` the capture time of the last face already loaded. The page filters faces by a comma-separated list of label ids, `label_ids`, or by `'all'`. Toggling a label in the filter menu rewrites that list:
- the list is first reduced to the ids still present in the label catalog;
- a label can be removed, but never the last one;
- a label can be added, and adding the last missing label collapses the list back to `['all']`.

Every filter change rewrites the route's query string. The page also re-labels a face, and sends the update request only when the label id actually changes.

**The label-management page** (`FaceLabels.jsx`) keeps the currently selected label. Responses to adding, renaming or deleting a label update that selection.

**The single-select menu** (`SingleSelect.jsx`) checks an option when it is one of the comma-separated fields of the selection. It shows options with `_` replaced by a space.

**The detection helpers** of `video.py`:
- the per-object filter (areas, score, ratio, mask cell);
- the minimum region size, rounded up to a multiple of 4;
- box overlap and containment;
- merging boxes into clusters (`reduce_boxes`);
- building candidate clusters of box indices;
- the bounding region of a cluster;
- consolidating detections that lie mostly inside a larger one.

**The face detectors.** The local detector filters raw rows. The remote detector decodes the 20×134 result buffer it shares with the detector process. The DOODS client packs the DOODS service's reply into that 20×134 layout. One lemma shows that the layout round-trips: decoding a buffer that holds a DOODS-packed matrix gives back the written predictions. The DOODS `detect_raw` returns the bare matrix, while the local face detector unpacks a pair from it; that mismatch is recorded under Findings.

**The detector model settings**:
- their defaults;
- the label maps merged from the label file and the configured customization;
- the rewrite of a `plus://` model reference into the local model cache.

Throughout the model:
- JavaScript objects are ordered lists of key/value entries.
- JavaScript `undefined` is `None` or `JsValue.Undefined`.
- Python dicts keyed by integers are Dafny maps.
- Python exceptions that escape the modelled code (`KeyError`, `IndexError`, `TypeError`, `ValueError`) are explicit `Failure` results.
- The helpers whose source is not part of this model are function parameters. They are intersection-over-union, `calculate_region`, `get_cluster_boundary`, the 5% area test and the 90% intersection test.

## Model

| member | source | states |
|---|---|---|
| JsText.IndexOf | web/src/routes/Faces.jsx:276 | `indexOf` gives the first position of the token, or -1 exactly when the token is absent or `undefined` |
| JsText.SplitJoin | web/src/routes/Faces.jsx:285 | splitting the joined ids on `,` gives back the same list when no field holds a comma |
| JsText.ParseIntToString | web/src/routes/Faces.jsx:215 | an id's decimal text is loosely equal (`==`) to the id, so a rendered id token matches its label |
| JsText.IntToStringInjective | web/src/routes/Faces.jsx:195 | two different ids never render to the same option string |
| Params.With | web/src/routes/Faces.jsx:329 | `{ ...p, [key]: value }` gives `key` the new value and leaves every other key as it was |
| Params.WithEntries | web/src/routes/Faces.jsx:329 | in an object without duplicate keys the spread rewrites the entry holding the key in place and no other entry |
| Params.WithTwice | web/src/routes/Faces.jsx:321 | writing the same key twice leaves only the second value |
| Params.OmittedValues | web/src/routes/Faces.jsx:333 | null, empty, `'all'` and `['all']` are left out of the query string; every other non-empty string is written |
| Params.OmittedFieldDropsOut | web/src/routes/Faces.jsx:331-339 | setting a key to a value that is not written gives the query string of the object without that key |
| Params.QueryStringFields | web/src/routes/Faces.jsx:331-340 | when no key or value holds `&`, the route's query splits back into exactly the written `key=value` fields in key order |
| Params.Hashed | web/src/routes/Faces.jsx:71-84 | the loader's key hash sees a key holding `undefined` as missing, and any other key as its value |
| Params.SameHashIff | web/src/routes/Faces.jsx:71-84 | two filters give the same first-page key exactly when every key hashes alike in both |
| Params.WithSameHash | web/src/routes/Faces.jsx:327-330 | rewriting one key keeps the first-page key exactly when that key hashes alike before and after |
| Catalog.IdFromLabel | web/src/routes/Faces.jsx:97-105 | the id of the first catalog entry with that label, else -1 |
| Catalog.LabelFromId | web/src/routes/Faces.jsx:107-115 | the label of the first entry whose id matches, else "Not Set"; a null id matches nothing |
| Catalog.GetLabelOptions | web/src/routes/FaceLabels.jsx:30-38 | one option per catalog entry, its label, in catalog order |
| Catalog.GetLabelIdOptions | web/src/routes/Faces.jsx:191-199 | one option per catalog entry, its id as a string, in catalog order |
| Catalog.IdOptionsPosition | web/src/routes/Faces.jsx:191-199 | with unique ids, an id string occurs among the options exactly at its entry's position |
| FaceFilter.FirstIdMatch | web/src/routes/Faces.jsx:235-239 | the first catalog entry whose id is loosely equal to the token, or none when no id matches |
| FaceFilter.GetLabelIdSelections | web/src/routes/Faces.jsx:228-246 | the selected tokens that match a catalog id, each replaced by that id, in selection order, joined by `,` |
| FaceFilter.GetLabelSelections | web/src/routes/Faces.jsx:201-226 | `'all'` while the filter is loosely `'all'`, else the labels of the matched ids in selection order |
| FaceFilter.ResolvedAppend | web/src/routes/Faces.jsx:234-241 | the id lookup treats each token on its own, so the lookup of a concatenation is the concatenation of the lookups |
| FaceFilter.ResolvedSingle | web/src/routes/Faces.jsx:235-239 | a token resolves to nothing exactly when no id matches it, and otherwise to the first matching entry |
| FaceFilter.ResolvedCanonical | web/src/routes/Faces.jsx:234-243 | with unique ids, re-resolving the rendered ids of catalog entries gives back those entries in order |
| FaceFilter.CurrentItems | web/src/routes/Faces.jsx:284-285 | splitting the sanitised selection string gives back exactly the sanitised token list |
| FaceFilter.ToggleLabelIds | web/src/routes/Faces.jsx:248-315 | the new `label_ids` is always a string or `['all']` |
| FaceFilter.ToggleFromAllResolved | web/src/routes/Faces.jsx:264-277 | from `'all'` with two or more labels, toggling a known label gives every catalog id in order except that label's, and every other id is kept |
| FaceFilter.ToggleFromAllUnresolved | web/src/routes/Faces.jsx:253-276 | from `'all'`, toggling an unknown label splices at index -1 and so drops the last id instead |
| FaceFilter.ToggleFromAllFewLabels | web/src/routes/Faces.jsx:275-280 | from `'all'` with at most one catalog label the filter stays `['all']` |
| FaceFilter.ToggleExplicitRemoves | web/src/routes/Faces.jsx:283-297 | on an explicit filter with more than one remaining id, toggling a present id removes exactly its first occurrence |
| FaceFilter.ToggleExplicitKeepsLast | web/src/routes/Faces.jsx:291-297 | toggling the only remaining id leaves the filter unchanged |
| FaceFilter.ToggleExplicitNeverEmpty | web/src/routes/Faces.jsx:291-297 | removing a present id never empties an explicit filter |
| FaceFilter.ToggleExplicitCollapses | web/src/routes/Faces.jsx:298-300 | adding an id when the count plus one equals the number of catalog labels collapses the filter to `['all']` |
| FaceFilter.ToggleExplicitAppends | web/src/routes/Faces.jsx:298-304 | otherwise a known absent id is appended after the current ids |
| FaceFilter.ToggleExplicitUnresolved | web/src/routes/Faces.jsx:298-303 | a label text the catalog does not know pushes `undefined`, which joins as an empty field: the filter gains a trailing comma, or stays empty when no id was selected |
| FaceFilter.JoinedIdsNotAll | web/src/routes/Faces.jsx:277 | a non-empty list of ids never joins to the string `'all'` |
| FaceFilter.ToggleTwiceFromAll | web/src/routes/Faces.jsx:264-304 | toggling the same known label twice, starting from `'all'` with two or more labels, returns to `['all']` |
| FacesPage.FetchParams | web/src/routes/Faces.jsx:66-69 | each request sets `limit` to 25 and keeps every other parameter |
| FacesPage.PageKey | web/src/routes/Faces.jsx:71-82 | page 0 uses the filter as is; a later page sets `before` to the last face's capture time and keeps every other key; an empty previous page raises `TypeError` |
| FacesPage.PageKeyOverridesBefore | web/src/routes/Faces.jsx:73-76 | a later page's key does not depend on the filter's own `before` |
| FacesPage.IsDone | web/src/routes/Faces.jsx:345 | loading is done with no pages, or when the last page holds fewer than 25 faces |
| FacesPage.IsDoneLastPage | web/src/routes/Faces.jsx:345 | only the size of the newest page decides whether loading is done |
| FacesPage.ToggledIds | web/src/routes/Faces.jsx:248-315 | the label lookup loop and the splice and push branches compute exactly the toggled `label_ids` |
| FacesPage.FacesPage.constructor | web/src/routes/Faces.jsx:42-49 | the filter starts with null dates and `label_ids` from the route or `'all'`; one page is requested |
| FacesPage.FacesPage.SetSearchParams | web/src/routes/Faces.jsx:71-84 | the filter is replaced; when the first page's key hashes differently the infinite loader resets to one page with nothing loaded, otherwise its size and pages stay |
| FacesPage.FacesPage.OnFilter | web/src/routes/Faces.jsx:327-343 | the filter gets the new value and the route becomes the path plus the query string of the new filter; the loader resets exactly when the new value changes the first page's key |
| FacesPage.FacesPage.ShowAll | web/src/routes/Faces.jsx:499 | show-all stores `['all']` and routes to the query of the filter without `label_ids`; the loader resets to one unloaded page unless the filter already held `['all']` |
| FacesPage.FacesPage.ToggleNamedFilter | web/src/routes/Faces.jsx:248-315 | the filter's `label_ids` becomes the toggled value; the loader resets to one unloaded page exactly when the toggle changes `label_ids` |
| FacesPage.FacesPage.SelectDateRange | web/src/routes/Faces.jsx:319-325 | a date range sets `before` and `after` and keeps the label filter; the loader resets exactly when the new filter hashes differently |
| FacesPage.FacesPage.PagesLoaded | web/src/routes/Faces.jsx:84 | a fetch result replaces the loaded pages and nothing else |
| FacesPage.FacesPage.AttachLastItem | web/src/routes/Faces.jsx:348-361 | while a fetch is running nothing is observed; otherwise a new observer captures the current size and done flag |
| FacesPage.FacesPage.ObserverFired | web/src/routes/Faces.jsx:353-357 | an intersecting last item requests one page more than the size captured, unless loading was done |
| FacesPage.FacesPage.AssignFaceLabel | web/src/routes/Faces.jsx:117-137 | the face takes the id of the chosen label, and an update is sent exactly when that id differs from its old one |
| SingleSelect.IsOptionSelected | web/src/components/SingleSelect.jsx:15-21 | an empty or missing selection checks nothing, and an option holding a comma is never checked |
| SingleSelect.SelectedIffField | web/src/components/SingleSelect.jsx:15-21 | an option is checked exactly when it equals one of the selection's comma-separated fields |
| SingleSelect.DisplayText | web/src/components/SingleSelect.jsx:53 | the shown text has the same length, no `_`, and every other character kept |
| SingleSelect.DisplayTextIdempotent | web/src/components/SingleSelect.jsx:53 | replacing underscores a second time changes nothing |
| SingleSelect.MenuRows | web/src/components/SingleSelect.jsx:42-56 | one row per option: its display text, its checked state, and the raw option it toggles |
| SingleSelect.ShownAlikeToggledApart | web/src/components/SingleSelect.jsx:50-53 | two options that display the same still toggle and check separately |
| FaceLabels.LabelEditor.constructor | web/src/routes/FaceLabels.jsx:11-17 | the selection starts at the route's label or "Not Set", with no delete prompt |
| FaceLabels.LabelEditor.OnLabelSelect | web/src/routes/FaceLabels.jsx:61-67 | the selection object gets the new value under its key |
| FaceLabels.LabelEditor.ToggleLabel | web/src/routes/FaceLabels.jsx:54-59 | the toggled option becomes the selected label |
| FaceLabels.LabelEditor.AskDelete | web/src/routes/FaceLabels.jsx:72-73 | deleting a saved selection only opens the prompt |
| FaceLabels.LabelEditor.ConfirmDelete | web/src/routes/FaceLabels.jsx:74-85 | the delete targets the selected label's id; a 200 response selects "Not Set" and leaves every other field of the selection state as it was; any other keeps the selection |
| FaceLabels.LabelEditor.AddLabel | web/src/routes/FaceLabels.jsx:88-101 | a 200 response selects the typed label and leaves every other field of the selection state as it was; any other keeps the selection |
| FaceLabels.LabelEditor.ChangeLabel | web/src/routes/FaceLabels.jsx:103-116 | the rename targets the old label's id; a 200 response selects the new text and leaves every other field of the selection state as it was; any other keeps the selection |
| VideoFilter.Filtered | frigate/video.py:60-111 | untracked objects are filtered and objects without settings are kept; any area, score or ratio bound violated filters; otherwise the mask cell decides, and an empty mask raises `IndexError` |
| VideoFilter.MaskLookupInBounds | frigate/video.py:98-108 | for a rectangular mask and non-negative coordinates the clamped lookup stays inside the mask |
| VideoFilter.MaskClampsFarCorner | frigate/video.py:101-105 | a box beyond the mask reads the mask's far corner cell |
| VideoFilter.MinRegionSize | frigate/video.py:114-130 | the region size is a multiple of 4, at least half the larger side and at most 3 more, and exactly half when half is already a multiple of 4 |
| VideoFilter.MinRegionSizeLeast | frigate/video.py:114-130 | no smaller multiple of 4 reaches half the larger side |
| VideoFilter.BoxOverlapsSymmetric | frigate/video.py:592-595 | overlap does not depend on argument order |
| VideoFilter.BoxOverlapsIffCommonPixel | frigate/video.py:592-595 | two well-formed boxes overlap exactly when they share a pixel |
| VideoFilter.BoxInsideReflexive | frigate/video.py:598-602 | every box lies inside itself |
| VideoFilter.BoxInsideTransitive | frigate/video.py:598-602 | containment is transitive |
| VideoFilter.BoxInsideIffPixels | frigate/video.py:598-602 | the second box is inside the first exactly when each of its pixels is |
| VideoFilter.IntersectsAny | frigate/video.py:624-628 | true exactly when some box of the list overlaps the given one |
| VideoClusters.Grow | frigate/video.py:613-616 | a grown cluster contains both the old cluster and the box |
| VideoClusters.ReduceBoxes | frigate/video.py:605-621 | the loop computes the reduced cluster list |
| VideoClusters.ReducedCount | frigate/video.py:605-621 | never more clusters than boxes, and at least one for a non-empty input |
| VideoClusters.ReducedCovers | frigate/video.py:605-621 | every input box lies inside some output cluster |
| VideoClusters.ReducedEdges | frigate/video.py:613-619 | each edge of a cluster is the matching edge of some input box |
| VideoClusters.GetClusterRegion | frigate/video.py:838-850 | the region is the region helper applied to the cluster's bounding box |
| VideoClusters.HullBounds | frigate/video.py:839-847 | the bounding box contains every box of the cluster and starts from the frame size and 0 |
| VideoClusters.ShouldCluster | frigate/video.py:819-826 | a box joins unless the region is wider than the minimum and some member box is too small for it |
| VideoClusters.GrowCluster | frigate/video.py:798-827 | the cluster is the index-order fold: each unused index inside the seed's boundary joins exactly when the cluster with it passes the size test; it starts at its seed, holds only unused later indices, and marks them used |
| VideoClusters.ConsiderIndex | frigate/video.py:802-827 | one pass of the inner loop adds the index exactly when it is unused, inside the boundary and passes the size test |
| VideoClusters.GrownWithoutSizeTest | frigate/video.py:802-827 | when no region is wider than the minimum, the cluster takes every unused index inside the seed's boundary |
| VideoClusters.GetClusterCandidates | frigate/video.py:786-835 | the candidates are the index-order fold in which each still-unused index seeds the cluster `GrowCluster` builds and marks it used; hence every box index is in some candidate, and candidates are sorted, pairwise disjoint and inside their seed's boundary |
| VideoClusters.SortByArea | frigate/video.py:863 | sorting keeps the same detections |
| VideoClusters.SortByAreaSorted | frigate/video.py:863 | the sorted group is ordered by area, smallest first |
| VideoClusters.SortByAreaStable | frigate/video.py:863 | the sort is stable: the detections of each area keep their order in the group |
| VideoClusters.OverlapsLater | frigate/video.py:866-880 | the inner loop reports exactly whether some larger detection mostly covers this one |
| VideoClusters.KeepUncovered | frigate/video.py:865-882 | a sorted group keeps exactly its detections that no later one mostly covers |
| VideoClusters.GetConsolidatedObjectDetections | frigate/video.py:853-884 | the nested loops compute the consolidated list group by group |
| VideoClusters.ConsolidateGroupKeeps | frigate/video.py:858-882 | a group keeps at least one and at most all of its detections, only its own, including the one with the largest area |
| VideoClusters.ConsolidateSingleton | frigate/video.py:858-860 | a one-item group is kept as it is |
| VideoClusters.ConsolidatedFromInputs | frigate/video.py:853-884 | every consolidated detection comes from some input group |
| FaceDetection.LocalDecoded | frigate/face_detection.py:42-57 | the output is never longer than the input, and every entry scores at least the threshold and carries a label of the map |
| FaceDetection.LocalDetect | frigate/face_detection.py:42-57 | the filter loop computes the local decoding |
| FaceDetection.LocalSkipsInvalid | frigate/face_detection.py:47-50 | rows with a label index out of range are skipped and scanning continues |
| FaceDetection.LocalStopsAtLowScore | frigate/face_detection.py:51-52 | the first in-range row below the threshold ends the scan; later rows are ignored |
| FaceDetection.LocalInInputOrder | frigate/face_detection.py:53-55 | entries are the label, score and box of emitted rows, in input order |
| FaceDetection.RemoteDecoded | frigate/face_detection.py:217-228 | the output is never longer than the buffer; every entry scores at least the threshold and holds 128 embedding values |
| FaceDetection.RemoteFaceDetector.Detect | frigate/face_detection.py:201-231 | when stopping nothing is queued and the result is empty; otherwise the frame is copied, the name queued and the buffer decoded |
| FaceDetection.RemoteFaceDetector.DecodeBuffer | frigate/face_detection.py:217-228 | the decode loop computes the remote decoding of the buffer's rows |
| FaceDetection.RemoteLacksRangeCheck | frigate/face_detection.py:217-221 | an out-of-range label index is skipped locally but raises `KeyError` remotely |
| FaceDetection.RemoteDecodesPrefix | frigate/face_detection.py:217-228 | rows above the threshold up to a stop row decode to one entry each |
| FaceDetection.DoodsRoundTrip | frigate/detectors/plugins/doods.py:67-83 | the layout round-trips: decoding a buffer holding a DOODS-packed matrix gives one entry per written prediction, with its confidence, its box in y, x order and its zero-padded embedding |
| PyBuiltins.UnpackPair | frigate/face_detection.py:63 | unpacking into two names succeeds exactly for two items; more raise `ValueError` "too many values to unpack (expected 2)", fewer raise `ValueError` too |
| FaceDetection.DoodsDetectRawAsWritten | frigate/face_detection.py:59-67 | over the DOODS plugin, unpacking the returned matrix into detections and timeout always fails, with `ValueError` whenever the plugin itself returns |
| FaceDetection.DoodsPairRoundTrip | frigate/face_detection.py:59-67 | through the corrected `detect_raw` pair, a reply with predictions is not flagged as failed and decodes to one entry per written prediction |
| Doods.DetectRawPair | frigate/detectors/plugins/doods.py:38-83 | the corrected result is the packed matrix with a flag that is set exactly when the request failed, and fails exactly when packing does |
| Doods.PackedRow | frigate/detectors/plugins/doods.py:74-81 | a row holds 0, the confidence, y_min, x_min, y_max, x_max, then the embedding and zeros; missing embeddings raise `TypeError` and more than 128 raise `IndexError` |
| Doods.Packed | frigate/detectors/plugins/doods.py:39-65 | the matrix is always 20×134, and all zeros when the request fails or the reply has no predictions |
| Doods.StopIndex | frigate/detectors/plugins/doods.py:67-72 | the rows written stop at the first confidence below 0.4, at the end of the list or at 20 |
| Doods.PackedRowsSucceed | frigate/detectors/plugins/doods.py:67-81 | packing succeeds exactly when every written row does |
| Doods.PackedRowsLayout | frigate/detectors/plugins/doods.py:39-83 | the written rows are those of the predictions, every later row stays zero |
| Doods.PackedRowsFirstError | frigate/detectors/plugins/doods.py:67-81 | a failed packing raises the error of the first failing row |
| Doods.AtMostTwentyRows | frigate/detectors/plugins/doods.py:71-72 | predictions from the 21st on never reach the matrix |
| Doods.PackedPrefix | frigate/detectors/plugins/doods.py:67-72 | predictions after the stop never reach the matrix |
| Doods.DetectRaw | frigate/detectors/plugins/doods.py:38-83 | the cell-by-cell fill of a fresh 20×134 array equals the packed matrix, and fails with the same error |
| DetectorConfig.MergeLabelmap | frigate/detectors/detector_config.py:112-119 | the merged map has the keys of both maps, and the customization wins on shared keys |
| DetectorConfig.MergeLaws | frigate/detectors/detector_config.py:112-119 | an empty customization keeps the loaded map, and merging the same customization twice changes nothing |
| DetectorConfig.IntKeys | frigate/detectors/detector_config.py:157-161 | conversion succeeds exactly when every key is a decimal literal, else raises `ValueError` for such a key |
| DetectorConfig.IntKeysEntries | frigate/detectors/detector_config.py:157 | the converted map has every parsed key, each holding the value of its last occurrence |
| DetectorConfig.IntKeysOfRendered | frigate/detectors/detector_config.py:141-157 | integer keys written as text and converted back give the original map |
| DetectorConfig.ModelConfig.constructor | frigate/detectors/detector_config.py:41-119 | unset settings take their defaults (320, "nhwc", "rgb", "ssd", "DOODS_COS", "Regions", 0.05, 0.70, 0, 24000000, 100, 0.5, "Any", true), and each merged map is the label file overridden by the customization |
| DetectorConfig.ModelConfig.CheckAndLoadPlusModel | frigate/detectors/detector_config.py:122-163 | a path that is not `plus://` changes nothing; otherwise the path moves into the model cache with its `.json` info file beside it, and an unsupported detector raises `ValueError` after the path is rewritten but before any other setting changes |
| DetectorConfig.ModelConfig.LoadModelInfo | frigate/detectors/detector_config.py:151-163 | settings come from the model info, and each merged map is the info map with integer keys overridden by the customization |

## Left out

- Rendering, menus, dialogs, the date picker, file import, capture buttons and the face delete prompt of the two pages are not modelled. The network calls (axios, SWR) are not modelled either; their responses are parameters.
- `daysAgo` and `monthsAgo` read the wall clock. The date bounds are parameters of `FacesPage.FacesPage.SelectDateRange`.
- Only the `label_ids` branches of `onToggleNamedFilter` are modelled; the other filter names never reach it from the page.
- `FacesPage.FacesPage.OnFilter` requires `label_ids` to be set to an id string or `['all']`, the only values the page writes there.
- JavaScript's `Number(token)` is modelled for the empty string and signed decimal literals only. Whitespace, fractions, exponents and hexadecimal never occur in the ids the page renders. The tokens of a `label_ids` taken from the route may hold them: there ` 1`, `1.0` or `0x1` would match id 1, and in the model they match nothing.
- `FacesPage.FacesPage.AssignFaceLabel` returns the request it would send. The request is never awaited, so its status is undefined and the reload never happens.
- SWR's cache, revalidation and request ordering are not modelled. The model keeps only the page count and the loaded pages. A changed first-page key resets them to one unloaded page; pages SWR may still hold in its cache for a key seen before are not modelled.
- `frigate/face.py` is not part of this model. It is a database-inserting thread with no decision logic.
- `VideoFilter.Filtered` treats area and ratio as given values. Boxes are integers and scores exact reals, so float rounding is not modelled.
- `Doods.PackedRow` stores exact reals. The matrix is `float32`, so the source rounds each confidence, coordinate and embedding value; that rounding is not modelled.
- `FaceDetection.DoodsRoundTrip` gives back the predictions exactly because the model stores exact reals. Through the `float32` matrix and shared buffer the source gives them back rounded to `float32`.
- `FacesPage.PageKey` uses an integer capture time. The source's capture time is a float timestamp; only its value as the `before` key matters to the model.
- `VideoClusters.GetClusterCandidates` returns the candidates in creation order. Python returns them through a set in an unspecified order. Since the candidates are disjoint, the set removes nothing.
- `VideoClusters.ShouldCluster` takes the 5% test as a parameter. A zero-area region would raise `ZeroDivisionError` in `area(box) / area(cluster_region)`, and that case is not modelled.
- `VideoClusters.OverlapsLater` takes the 90% test as a parameter. A zero-area detection would raise `ZeroDivisionError`, and that case is not modelled.
- The intersection-over-union, `calculate_region`, `get_cluster_boundary`, `area` and `intersection` helpers are not part of this model. They appear as function parameters.
- `get_consolidated_object_detections` iterates a dict's values. The model takes those groups as a sequence in the dict's order.
- `FaceDetection.LocalDetect` starts from the rows `detect_raw` returns. The transposition, timing, logging and fps counter are not modelled.
- `FaceDetection.RemoteFaceDetector.Detect` leaves out the event handshake with the detector process. `Event.wait` returns a bool, never `None`, so the timeout branch cannot be taken. The buffer contents are what the detector process last wrote.
- `run_detector` and `FaceDetectProcess` are not modelled: they are processes, signals and shared memory.
- `Doods.DetectRaw` starts from the outcome of the POST. The JPEG and base64 encoding and the HTTP request are not modelled. A body that is not JSON, or a prediction missing a coordinate key, is not modelled either.
- `DetectorConfig.IntKeys` accepts signed decimal literals only. Python's `int()` also accepts surrounding whitespace and digit separators.
- `DetectorConfig.ModelConfig.CheckAndLoadPlusModel` takes the model info as a parameter, whether downloaded or read from the info file. The model download, file writes, `compute_model_hash`, `create_colormap` and pydantic validation are not modelled. A model info file missing a key would raise `KeyError`; that case is not modelled.
- `DetectorConfig.ModelConfig.constructor` takes `load_labels` as a function parameter, so reading the label files is outside the model. The `input_tensor`, `input_pixel_format` and `model_type` enums are kept as their string values, without pydantic's validation. The face settings declared `Optional[...]` take plain types: an explicit `null` for them is not modelled, only the default when unset.

## Findings

| source | as written | input that shows it | evidently intended | confidence | as-written member | corrected member |
|---|---|---|---|---|---|---|
| frigate/face_detection.py:63 | `raw_detections, timeout = self.detect_api.detect_raw(...)`, while the DOODS plugin returns only its 20×134 matrix (frigate/detectors/plugins/doods.py:83) | any reply, for example a failed request: the zero matrix has 20 rows, and unpacking it raises `ValueError: too many values to unpack (expected 2)` | the plugin returns the matrix together with a timeout flag, and the packed rows reach the result buffer | high, not executed | FaceDetection.DoodsDetectRawAsWritten | FaceDetection.DoodsPairRoundTrip |
