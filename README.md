# Dafny model of the arclyte PHP code samples

This project models the core of a small collection of PHP utilities:

- **Pager** (`Pager.php`) works out the page count of a result set. It clamps the requested page and picks the previous and next pages. It chooses a window of page numbers around the current page and renders the window as HTML links.
- **Polygon encoder** (`polylineEncoder.php`) encodes Google Maps polygons:
  - Douglas-Peucker simplification of each ring, driven by an explicit stack;
  - discrete zoom levels for the retained vertices;
  - the Encoded Polyline Algorithm Format: a zig-zag fold, 5-bit groups with continuation bit 0x20, and an ASCII offset of 63.
- **Geometry** (`geometry.php`) covers:
  - the conversion between the PHP polygon array and the Well-Known Text `POLYGON((...),(...))` that MySQL reads and prints;
  - the shoelace area of a polygon with holes;
  - the centroid of its exterior ring;
  - the even-odd point-in-polygon test.
- **ZCTA converter** (`zctaConverter.php`) reads the Census Bureau's 5-digit ZIP Code Tabulation Area boundary files region by region:
  - the attribute file gives a map from polygon id to ZIP code;
  - the coordinate file is read line by line, dispatched on its number of fields;
  - each finished polygon is counted good or bad.
- **Live Twitter feed** (`twitter_widget/Twitterfeed.php`) covers:
  - the feed's tweets newer than a given id;
  - the search query and parameters for one author;
  - the batch import that merges each author's new tweets into the feed, newest first.

The modules are `Paging`, `Polyline`, `Wkt`, `Geometry`, `Zcta` and `Twitterfeed`. Two shared modules support them:

- `Text` holds PHP's `implode`/`explode` and decimal rendering;
- `Wrappers` holds `Option` and `Result`.

Objects that the PHP updates in place are classes with those fields:

- `Paging.Pager`, `Polyline.Encoder`, `Zcta.Converter` and `Twitterfeed.Feed`;
- their methods are proved against functions of the old state.

Loops stay loops with invariants. Expression-level code is functions and lemmas.

## Model

| member | source | states |
|---|---|---|
| Paging.NormalizePage | Pager.php:82-94 | The result is at least 1, and at most the page count when that is positive. A page already in range is kept. Any other page becomes the nearest page in range. |
| Paging.NormalizePageIdempotent | Pager.php:82-94 | Clamping a clamped page changes nothing. |
| Paging.CeilDivIsCeiling | Pager.php:25 | The page count is the least r with total <= r * perPage. |
| Paging.HalfUp | Pager.php:55 | `ceil(x / 2)` is the least r with x <= 2r. |
| Paging.RangeBounds | Pager.php:51-71 | Both bounds lie in [1, pageCount]. For a positive range, the window contains the current page and holds exactly min(pageRange, pageCount) pages. |
| Paging.RangeEntriesWindow | Pager.php:73-79 | The window array is a run of consecutive pages, each mapped to itself. Its first and last values are the bounds, as `min`/`max` read them. |
| Paging.WindowEntries | Pager.php:73-75 | The loop builds one entry (k, k) for each page from lower to upper, in order. |
| Paging.Pager.constructor | Pager.php:21-80 | With no results, every field keeps its default. Otherwise the page count is the ceiling quotient, with perPage raised to 1. With one page nothing else is set. Otherwise the pager holds the clamped current page, the previous and next pages, and the window of `RangeBounds` with its first and last page. `Valid()` holds in every case. |
| Paging.WithSlash | Pager.php:101 | The url ends in '/'. It is unchanged exactly when it already ended in '/', and gets one '/' appended otherwise. |
| Paging.AppendItems | Pager.php:108-114 | The loop appends one item per page of the window, in order. |
| Paging.PageItemIsSpan | Pager.php:109-113 | An item is a span exactly when it is the current page. |
| Paging.SpanCount | Pager.php:108-114 | A listing of distinct pages has one span if it contains the current page, and none otherwise. |
| Paging.ExactlyOneSpan | Pager.php:108-114 | A window that contains the current page renders exactly one span. |
| Paging.Pager.DisplayPages | Pager.php:96-122 | The result is empty for a single page. Otherwise it is the previous link, one item per page of the window, and the next link, all built on the slash-terminated url. |
| Polyline.ZigZag | polylineEncoder.php:111-118 | The folded number is odd exactly when the input is negative. |
| Polyline.ZigZagRoundTrip | polylineEncoder.php:111-118 | Unfolding the fold gives the number back. |
| Polyline.ZigZagInjective | polylineEncoder.php:111-118 | Distinct numbers fold to distinct codes. |
| Polyline.VarintShape | polylineEncoder.php:161-172 | Every character of an encoded number is in 63..126. Every character but the last carries the continuation bit (>= 95), and the last does not. |
| Polyline.EncodeNumber | polylineEncoder.php:161-172 | The loop emits exactly the 5-bit groups of the number, least significant first. |
| Polyline.EncodeSignedNumber | polylineEncoder.php:111-118 | The groups of the folded number. |
| Polyline.DecodeVarintOf | polylineEncoder.php:161-172 | Decoding an encoded number, whatever follows it, gives the number and leaves the rest. |
| Polyline.DecodeAllVarintAll | polylineEncoder.php:161-172 | A concatenation of encoded numbers decodes to exactly those numbers. |
| Polyline.RebuildDeltas | polylineEncoder.php:126-132 | Prefix sums of the coordinate differences rebuild the points. |
| Polyline.DecodePointsCode | polylineEncoder.php:120-137 | A points string decodes to exactly the points it was made from. |
| Polyline.SelectedEndpoints | polylineEncoder.php:122 | The first and the last vertex of a ring are always emitted. |
| Polyline.CreateEncodings | polylineEncoder.php:120-137 | The string is the encoding of the kept vertices in index order: those with a recorded distance, plus the first and the last. The differences start from the origin. |
| Polyline.BreaksTable | polylineEncoder.php:26-28 | For a zoom factor above 1 the thresholds strictly decrease, and the last one is verySmall. |
| Polyline.Encoder.constructor | polylineEncoder.php:20-29 | The settings are stored. The threshold table is verySmall * zoomFactor^(numLevels-i-1), and it is well formed when there is a level. |
| Polyline.LevelOfLeast | polylineEncoder.php:80-89 | Above verySmall, the level is the least index whose threshold the deviation reaches. Every level is a valid level. |
| Polyline.LevelMonotone | polylineEncoder.php:80-89 | A larger deviation never gets a finer level. |
| Polyline.Encoder.ComputeLevel | polylineEncoder.php:80-89 | The loop returns the walk over the table, or 0 at or below verySmall. |
| Polyline.Encoder.EndpointCode | polylineEncoder.php:140-144 | The endpoint code is numLevels - 1 when endpoints are forced, and the code of the overall maximum otherwise. |
| Polyline.Encoder.InteriorCode | polylineEncoder.php:147-149 | The code of a recorded interior vertex is numLevels - level - 1, as 5-bit groups. |
| Polyline.Encoder.EncodeLevels | polylineEncoder.php:139-159 | The endpoint code, then the code of every recorded interior index in order, then the endpoint code again. |
| Polyline.OneLevelPerPoint | polylineEncoder.php:120-159 | There is one level code per emitted vertex. |
| Polyline.FarthestPoint | polylineEncoder.php:49-61 | Returns the first vertex of the range at the largest positive deviation; no vertex deviates more. The running maximum becomes the larger of the old one and this one. |
| Polyline.Simplify | polylineEncoder.php:44-69 | The stack loop terminates and returns, as ghost, the ranges it popped. The first is the whole ring; each later one is a half of an earlier range, split at that range's farthest vertex. Every range with a vertex beyond verySmall is split at its first farthest vertex: that vertex is recorded with its deviation from the range's chord, and both halves are popped. Every new entry is the farthest vertex of a popped range. Every other interior vertex lies in a popped range whose vertices are all within verySmall of its chord. The running maximum ends equal to the larger of its start and every deviation in a popped range. A ring of two vertices or fewer changes nothing. |
| Polyline.SegmentDistanceBounds | polylineEncoder.php:91-109 | The distance to a segment is non-negative and no more than the distance to either end. |
| Polyline.EncodedRingDecodes | polylineEncoder.php:71-74 | A ring's points string decodes to the kept vertices, first and last included. Its levels string decodes to one code per kept vertex. |
| Polyline.Encoder.EncodeRing | polylineEncoder.php:42-74 | One ring is simplified from nothing recorded and a zero maximum, as `Simplify` states it. Then its points and levels are encoded. |
| Polyline.Encoder.EncodePolygon | polylineEncoder.php:38-78 | Corrected: entry r holds the points and levels of ring r, simplified on its own as `Simplify` states it. |
| Polyline.Encoder.EncodePolygonAsWritten | polylineEncoder.php:38-78 | As written: every entry is built from ring 0. Iteration r simplifies ring 0 again, starting from the distances and the maximum that iteration r - 1 left (iteration 0 from nothing and zero), as `Simplify` states it (`Carried`); entry r encodes ring 0 with iteration r's distances and maximum (`EncodedFrom`). The popped ranges are returned as ghost. |
| Polyline.OtherRingFirstVertex | polylineEncoder.php:42 | A string built from ring 0 never decodes to points starting at another ring's first vertex. |
| Text.ExplodeJoin | geometry.php:63-65 | `explode` undoes `implode` when no part contains the separator's first character. |
| Wkt.Close | geometry.php:27-30 | The closed ring starts and ends with the same point. It is unchanged exactly when the ring was already closed, and gets its first point appended otherwise. |
| Wkt.CloseIdempotent | geometry.php:27-30 | Closing a closed ring changes nothing. |
| Wkt.ConvertRing | geometry.php:25-39 | One ring is closed, its points joined by ',' and enclosed in parentheses. |
| Wkt.ConvertArrayToPoly | geometry.php:22-49 | The result is false exactly for an empty array. Otherwise it is the `PolyFromText` call on the text of the polygon with every ring closed. |
| Wkt.Strip | geometry.php:61 | The body is the text without its first 9 and last 2 characters, and empty when the text is too short. |
| Wkt.ParseRing | geometry.php:64-67 | A ring's text is split into points at ',' and into coordinates at ' '. |
| Wkt.Parse | geometry.php:58-71 | The parsed array always has at least one ring, and no ring is empty. |
| Wkt.ConvertPolyToArray | geometry.php:58-71 | The nested loops build exactly the split of the body into rings, points and coordinates. |
| Wkt.ParsePolygonText | geometry.php:58-71 | Parsing the text of a polygon gives the polygon back. This needs coordinates free of spaces, commas and ')'. |
| Wkt.ConvertRoundTrip | geometry.php:22-71 | The text inside `PolyFromText` parses back to the input with every ring closed. |
| Geometry.ShoelaceArea | geometry.php:84-95 | The inner loop computes half the wrap-around shoelace sum of the ring. |
| Geometry.GetArea | geometry.php:79-112 | The result is null for no rings. Otherwise it is exterior - sign(exterior) * the sum of the holes' absolute areas, whatever the holes' orientation. |
| Geometry.HoleRule | geometry.php:97-108 | The same-direction-subtract, else-add rule equals exterior - sign(exterior) * the sum of the holes' absolute areas. |
| Geometry.HoleShrinks | geometry.php:97-108 | Each further hole lowers sign(exterior) * area by exactly the hole's absolute area. Nothing stops it at zero, so enough large holes flip the sign. |
| Geometry.RingAreaReverse | geometry.php:84-95 | Reversing a ring negates its area. |
| Geometry.RingAreaClose | geometry.php:84-95 | Repeating the first vertex at the end leaves the area unchanged. |
| Geometry.GetPolygonCentroid | geometry.php:391-415 | The moment sums of the exterior ring over six times its area. The result is none with no ring or a zero area. |
| Geometry.CentroidReverse | geometry.php:391-415 | The centroid does not depend on the ring's orientation. |
| Geometry.CentroidClose | geometry.php:391-415 | The centroid does not depend on whether the ring repeats its first vertex. |
| Geometry.ToggleCrossings | geometry.php:431-439 | The flag is toggled exactly once per edge crossed by the ray to the right of the point. |
| Geometry.InRange | geometry.php:425-449 | True exactly when the point is inside the exterior ring by the even-odd rule and inside no interior ring. |
| Geometry.MeetsBetween | geometry.php:434-435 | A straddling edge meets the horizontal line between its ends. |
| Geometry.OutsideVertically | geometry.php:434-435 | A point above or below every exterior vertex is not in range. |
| Geometry.OutsideToTheRight | geometry.php:434-435 | A point at or to the right of every exterior vertex is not in range. |
| Zcta.MatchAt | zctaConverter.php:124 | A match is a digit id, whitespace and a quoted five-digit code, and its length lies within the text. |
| Zcta.Matches | zctaConverter.php:124 | Every pair found has a non-empty digit id and a five-digit code. |
| Zcta.MatchesRecord | zctaConverter.php:124 | A record at the front of the text yields its pair first. |
| Zcta.MatchesRender | zctaConverter.php:124 | A file of well-formed records yields every record, in file order. |
| Zcta.AssignLast | zctaConverter.php:127-131 | An id maps to the code of its last match. An id without matches keeps its entry or its absence. |
| Zcta.Converter.ProcessAttributes | zctaConverter.php:120-133 | The zip map becomes the old map with every match assigned in turn. |
| Zcta.ArraySearch | zctaConverter.php:185 | The result is found exactly when the vertex occurs, and it is the first index holding it. |
| Zcta.AddVertex | zctaConverter.php:181-191 | A vertex is dropped only when it already occurs in the ring and is not the ring's first vertex. Otherwise it is appended to the current ring. |
| Zcta.RepeatStoredAsWritten | zctaConverter.php:182-191 | The duplicate search reads a misspelt field. As written, a repeated vertex is stored again; the intended search drops it. |
| Zcta.Finalise | zctaConverter.php:240-271 | A polygon without an exterior ring is recorded as bad and not counted. Any other adds exactly one to `good` when the database accepts it, and otherwise exactly one to `bad` with an error recorded; the other counters stay. Nothing else changes. |
| Zcta.Converter.ProcessPolygon | zctaConverter.php:240-271 | The method performs `Finalise` on the converter's fields. |
| Zcta.HeaderLine | zctaConverter.php:154-169 | A new polygon starts with an empty shape, ring 0, the new id and centre, and one more in the total. With no previous positive id, the counts change only by that. |
| Zcta.VertexLine | zctaConverter.php:171-198 | With no positive id nothing changes. An id with a five-character code adds the vertex, latitude first. An id without one is counted bad once and switched off. |
| Zcta.EndLine | zctaConverter.php:200-214 | `-99999` starts the next ring and `END` changes nothing. Anything else records an error. |
| Zcta.Step | zctaConverter.php:146-231 | The line number advances by one. The zip map and prefix are kept, and the counters never decrease. A blank line changes nothing else; a line of four or more fields only records an error. |
| Zcta.Lines | zctaConverter.php:146-231 | Over n lines the line number advances by n, and the counters never decrease. |
| Zcta.TotalCountsHeaders | zctaConverter.php:167 | The total grows by one exactly on header lines. |
| Zcta.SwitchedOff | zctaConverter.php:192-196 | After an id without a code, vertex lines change nothing but the line number. |
| Zcta.Converter.ProcessHeader | zctaConverter.php:154-169 | The method performs `HeaderLine` on the converter's fields. |
| Zcta.Converter.ProcessVertex | zctaConverter.php:171-198 | The method performs `VertexLine` on the converter's fields. |
| Zcta.Converter.ProcessLine | zctaConverter.php:147-230 | The loop body performs `Step`, the corrected reading of the id guards. |
| Zcta.Converter.ProcessZips | zctaConverter.php:139-238 | The id is cleared and every line is processed. The last polygon is finished when its id is positive. |
| Zcta.Pad2 | zctaConverter.php:105 | The region code is two digits. |
| Zcta.Pad2Value | zctaConverter.php:105-107 | The two digits read back as the region number, so no two regions share a prefix. |
| Zcta.Region | zctaConverter.php:104-114 | The prefix is set. A region without a coordinate file changes nothing else. |
| Zcta.RegionKeepsIds | zctaConverter.php:127-131 | A region never removes an id from the zip map. |
| Zcta.RegionsKeepIds | zctaConverter.php:103-115 | Over any number of regions, an id in the zip map stays in it. |
| Zcta.Converter.ConvertAll | zctaConverter.php:103-115 | Regions 00 to 72 are processed in order. |
| Zcta.Converter.constructor | zctaConverter.php:88-101 | The paths are stored and the counters start at zero. Then all regions are run. |
| Zcta.AsWrittenKeepsNoVertex | zctaConverter.php:156-191 | As written, the polygon being built stays empty whatever the lines. |
| Zcta.SampleVertexKept | zctaConverter.php:171-191 | Corrected: one header and one vertex under a mapped id store that vertex, latitude first. |
| Zcta.SampleVertexDroppedAsWritten | zctaConverter.php:156-191 | As written, the same file stores no vertex, while the corrected reading stores one. |
| Twitterfeed.NewerRun | twitter_widget/Twitterfeed.php:64-69 | The run of tweets newer than the id, stopping at the first that is not. |
| Twitterfeed.Slice | twitter_widget/Twitterfeed.php:71-72 | `array_slice(.., 0, limit)` is a prefix of length min(limit, n), or n + limit for a negative limit. |
| Twitterfeed.GetLatestTweets | twitter_widget/Twitterfeed.php:59-75 | The result is a prefix of the feed and every tweet in it is newer than the id. It holds at most `limit` tweets when a limit is given. With no limit, it stops only at a tweet not newer than the id. |
| Twitterfeed.Query | twitter_widget/Twitterfeed.php:171-184 | An error exactly when neither the author nor the hashtag is set. Otherwise one of `from:name`, `#tag` or `from:name #tag`. |
| Twitterfeed.SearchParams | twitter_widget/Twitterfeed.php:186-193 | 50 results per page, `recent`, and `since_id` exactly when positive. |
| Twitterfeed.SortDown | twitter_widget/Twitterfeed.php:205-207 | A permutation, ordered by id, largest first. |
| Twitterfeed.RecentRun | twitter_widget/Twitterfeed.php:97-103 | The run of results no older than the feed's start, stopping at the first older one. |
| Twitterfeed.OwnMembers | twitter_widget/Twitterfeed.php:105-108 | The kept results are exactly the author's own. |
| Twitterfeed.PutMembers | twitter_widget/Twitterfeed.php:111-117 | Storing a tweet by id adds it, keeps every entry with another id, and adds nothing else. |
| Twitterfeed.FreshMembers | twitter_widget/Twitterfeed.php:130-138 | Exactly the entries whose id the feed lacks survive. |
| Twitterfeed.IndexOf | twitter_widget/Twitterfeed.php:125-127 | The position of an author's entry is the first entry with that name. |
| Twitterfeed.SetHandleInPlace | twitter_widget/Twitterfeed.php:125-127 | An author already listed has that entry's data replaced where it stands, and every other entry is kept. An author not yet listed is appended at the end. |
| Twitterfeed.SetHandleTwice | twitter_widget/Twitterfeed.php:119-127 | Saving the author's data twice is saving the last. |
| Twitterfeed.CollectIds | twitter_widget/Twitterfeed.php:111-117 | `$latest_redux` holds one id for every kept result, and no other. |
| Twitterfeed.FreshIds | twitter_widget/Twitterfeed.php:130-138 | The ids that survive are those the feed lacks. |
| Twitterfeed.KeptMembers | twitter_widget/Twitterfeed.php:97-108 | Every result kept for an author is that author's own and no older than the feed's start. |
| Twitterfeed.AbsorbAdds | twitter_widget/Twitterfeed.php:130-150 | The merged feed is, as a multiset, the old feed plus the stored results whose ids the feed lacked. So its ids are the old ids plus one for every kept result. It is sorted newest first whenever it changes, and dirty exactly then. Every added tweet is the author's, recent, with a new id. |
| Twitterfeed.AuthorAdds | twitter_widget/Twitterfeed.php:87-154 | The same, for one author's whole iteration: the feed gains exactly the stored results, among those kept for the author, whose ids it lacked. |
| Twitterfeed.ImportAdds | twitter_widget/Twitterfeed.php:83-159 | Over all authors, without an error: old tweets are kept. The ids become the old ids plus one for every result kept for any author. New tweets come from a listed author, are no older than the start, and have ids the feed lacked. The feed is sorted when changed, and dirty exactly when changed or already dirty. |
| Twitterfeed.ImportGrows | twitter_widget/Twitterfeed.php:83-159 | Over all authors, old tweets are kept, the feed is sorted when changed, and it is dirty exactly when changed or already dirty. |
| Twitterfeed.ImportFromAuthors | twitter_widget/Twitterfeed.php:83-159 | Every tweet the import adds is by a listed author, no older than the start, with an id the feed lacked. |
| Twitterfeed.ImportIds | twitter_widget/Twitterfeed.php:83-159 | The import leaves the old ids plus one for every result kept for any author. |
| Twitterfeed.Feed.KeepTweet | twitter_widget/Twitterfeed.php:110-127 | The tweet is stored by id, and its id and avatar are saved as the author's data. |
| Twitterfeed.Feed.ScanResults | twitter_widget/Twitterfeed.php:97-128 | The loop over one author's results, stopping at the first older tweet and skipping other authors. It ends with the kept tweets, the author's data and the handles of `Scanned`. |
| Twitterfeed.Feed.ImportAuthor | twitter_widget/Twitterfeed.php:87-154 | One author's iteration: handles, tweets and dirty flag as `Author` computes them. On an error, the error is returned and handles and tweets are unchanged. |
| Twitterfeed.Feed.ImportTweets | twitter_widget/Twitterfeed.php:83-159 | The feed and the error end as `Authors` computes them from the old state. On an error, the handles and tweets are those the authors before the failing one built. The feed is saved once exactly when something new was merged and no author raised an error. |

## Left out

- Floating point. Geometry uses reals, and the encoder takes coordinates already scaled by `floor(x * 1e5)` as integers. Rounding of PHP doubles is not reproduced.
- Polyline.Simplify: the distance `get_distance` is a function parameter; its squared form is modelled exactly as `SegmentDistanceSq`, since a square root is not available.
- Polyline.Encoder.EncodePolygon: requires verySmall >= 0. For a negative verySmall, a range with no deviation would record a distance at the unset `$maxLoc`, which is not modelled.
- Polyline.ZigZag: uses unbounded integers; the 64-bit wrap-around of `<<` on huge coordinates is not modelled.
- The `$numLevels` default of 18 and the other field defaults of the encoder are not modelled, since the constructor always overwrites them.
- Geometry.GetPolygonCentroid: returns none where the source divides by zero (no ring, or a zero area). PHP's warnings for a missing `$polygon[0]` are not modelled.
- Geometry.InRange: the crossing test divides by `yj - yi` only when the edge straddles the line, as the source's short-circuit `&&` does. The variable-variable flags `$in`/`$out` are two booleans.
- `get_distance` (miles/km), `get_circle`, `get_intersect`, the overlap functions and `degrees_to_radians` of geometry.php are not part of this model.
- Paging.Pager.constructor: for `pageRange <= 0` (for example 100 results, page 1, 10 per page and a range of 0) `RangeBounds` gives lower 2 and upper 1, an empty window; the model stores the window and its first and last page as none. PHP would call `min()`/`max()` on an unset array there, which warns and returns false before PHP 8 and throws from PHP 8.
- Paging.Pager.constructor: the default arguments (null, 1, 20, 5) are not modelled; every argument is explicit.
- PHP version: the model follows PHP 7 semantics throughout (loose comparisons of strings with numbers, warnings rather than exceptions on unset values and wrong argument types), which is what the `Pager`, `VertexLine` and `array_search` readings assume.
- Zcta.Converter.constructor: the default arguments (`'/home/zips/files'`, `'00'`, `'.dat'`, zctaConverter.php:88) are not modelled; every argument is passed explicitly.
- Twitterfeed.GetLatestTweets: the defaults `$since_id = null` and `$limit = null` (twitter_widget/Twitterfeed.php:59) are not modelled; a caller passes 0 for both, which reads the same, since `(double) null` is 0 and `null` is falsy like 0.
- Twitterfeed.OwnMembers: authors are compared as exact strings, where the loose `!=` at twitter_widget/Twitterfeed.php:107 treats two numeric handles such as "0123" and "123" as equal.
- Zcta.Converter.constructor: `new encodePolygon()` (zctaConverter.php:97) passes no arguments, while the encoder's constructor (polylineEncoder.php:20) takes four without defaults, which only warns in PHP 7.0 (the settings stay null) and raises an ArgumentCountError from PHP 7.1 on. The model does not build the encoder, since the converter never uses its output; it follows the converter as if construction succeeded.
- Zcta.Finalise: `process_polygon` calls `convert_array_to_poly` (zctaConverter.php:249), which is protected in `geometry` (geometry.php:22), so PHP raises a fatal Error there on every polygon with an exterior ring. The model follows the evidently intended call and, since its result is never used, leaves it out.
- Wkt.ConvertArrayToPoly: requires every ring to be non-empty. For an empty ring, PHP implodes an unset array with a warning.
- Wkt: coordinates are strings (the parser produces strings, and PHP's `implode` renders numbers as text). Number formatting is not modelled.
- Zcta: the files are inputs. The attribute file is its text and the coordinate file its lines split by `preg_split('!\s+!')`. File presence is membership in a map, and the database check is the predicate `valid`.
- Zcta: `(float)` casts of the coordinates and centre are not applied; they stay the text of their fields.
- Zcta: the raw line text kept in error records is not modelled, and neither are `fgets` returning false at end of file or `$db`, which is undefined in the source.
- Zcta: the SQL string, the polygon encoding and the `PointFromText` centre computed in `process_polygon` are not modelled, since their results are never used.
- Zcta: the second `\d{5}` check of each captured code always holds, so it has no branch in the model.
- Zcta.VertexLine: an id counts as positive only when it is a plain decimal integer literal above 0. PHP's loose comparison with 0 also reads `+5`, `1.5` and `1e3` as numbers, reads `12abc` as 12 before PHP 8, and from PHP 8 compares a non-numeric id such as `abc` with 0 as a string, which holds. None of these forms is modelled, since the files' ids are digit strings.
- Twitterfeed: the search service is a function parameter, returning none when the call fails or the results key is missing. `_processLinks` and `_processInlineImages` (link rewriting and the `curl` fetch) are the parameter `links`.
- Twitterfeed: `getActiveFeed`, a MongoDB query over the clock, is not part of this model, and neither are logging and `save` (counted by `saves`).
- Twitterfeed: `strtotime` is outside, so dates arrive as integer timestamps.
- Twitterfeed: tweet ids are compared as exact integers. PHP's `(double)` casts (Twitterfeed.php:65, 145 and 206) round ids above 2^53, so ids of about 10^18 that differ only in their low bits can compare equal there; the model does not reproduce that rounding.
- Twitterfeed.SortDown: `usort` with this comparator fixes no order among equal ids. The model picks one stable order, so only the sortedness and the permutation are claimed for it.
- Twitterfeed.Feed.ImportTweets: the exception of `_getLatestTweets` is returned as an error value, together with the feed the earlier authors built, as `Authors` computes it. Nothing is saved after it.

## Findings

| source | as written | input that shows it | evidently intended | confidence | as-written member | corrected member |
|---|---|---|---|---|---|---|
| polylineEncoder.php:42 | `$points = $polygon[0]` inside the loop over rings, with `$dists` and `$absMaxDist` never reset | a polygon with an exterior ring and one hole whose first vertices differ: the entry for the hole decodes to the exterior's vertices | `$points = $polygon[$r]`, each ring simplified from no recorded distances | not executed | Polyline.Encoder.EncodePolygonAsWritten, Polyline.OtherRingFirstVertex | Polyline.Encoder.EncodePolygon |
| zctaConverter.php:156,173 | `if ($poly_id > 0)` tests an undefined local, which is null and never above 0 | the lines `1766 -73.9 41.3`, `-73.9 41.3`, `END` with 1766 mapped to 10511: no vertex is stored, and a header never finishes the previous polygon. Only the end-of-file check (zctaConverter.php:234-235), which reads `$this->poly_id`, finishes each file's last polygon, with no rings, so it is recorded as a bad polygon | `$this->poly_id > 0` | not executed | Zcta.SampleVertexDroppedAsWritten, Zcta.AsWrittenKeepsNoVertex | Zcta.SampleVertexKept, Zcta.Converter.ProcessLine |
| zctaConverter.php:185 | `array_search($points, $this->polgyon[$this->ring])` reads a misspelt, unset field, so before PHP 8 no key is ever found (from PHP 8, `array_search` on null throws a TypeError) | a ring holding (1 2), (3 4) and then the vertex (3 4) again: the repeat is stored a second time | `$this->polygon[$this->ring]`: a vertex already in the ring, other than its first, is not added again | not executed | Zcta.AddVertexAsWritten, Zcta.RepeatStoredAsWritten | Zcta.AddVertex |
