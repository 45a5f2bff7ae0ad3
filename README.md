# milmi employer geocoding — a Dafny model

This project models `geocode_milmi.py` of the milmi repository. That script takes the
employers that have not been geocoded yet and sends their addresses to the Census
batch geocoder, 5000 rows per request at most. It joins the answers back to the
candidates, builds the 15-digit census block GEOID and a point geometry, and
validates the result against the `EmployerGeo` schema. It then records provenance
metadata and commits it. Only after that does it append the rows to
`childcare.employers_geo`, and it skips the append in metadata-only mode.

Modules:

- `Wrappers`: `Option` and `Result`.
- `Seqs`: the first index of a sequence whose element fails a test.
- `Records`: candidates, geocoder requests and responses, merged rows, and the
  five-column output frame. Dates and coordinates are opaque values.
- `Fips`: decimal rendering of a non-negative integer, Python's `str.zfill`, and a
  parser used as their inverse.
- `Batching`: the call count `n // 5000 + 1` and `numpy.array_split`. It also holds
  the inner `merge` on `id` and the submit loop, a method with a sequence
  accumulator. An empty answer from the service becomes `pd.DataFrame([])`,
  which has no `id` column, so its merge raises `KeyError` and the loop stops
  after that call.
- `Normalize`: zero-padding of the four FIPS fragments, the `block_geoid`
  concatenation with null propagation, the `matchtype` rename, the point
  geometry, and the column selection.
- `Schema`: the `EmployerGeo` checks (non-null `id` and `date`, length-15
  `block_geoid`, strict column set) as a validator that returns the frame or an
  error naming the offending column and row.
- `Pipeline`: the control flow of `main`, as an effect sequence (`RunSpec`) and as
  a `Warehouse` class whose `Run` method appends those effects to its journal. The
  effects are geocoder calls, the metadata record, its commit and the append. The
  audit log and the `employers_geo` table are both read off the journal.

The configuration, the database queries, the geocoder and `record_metadata` are
inputs, gathered in a `World` value:

- the edition dates that `metadata.toml` lists for `employers_geo` (looking up
  any other date raises `KeyError`);
- the outcome of the delta query (rows, `ProgrammingError`, or another error);
- the rows of the select-all query;
- the geocoder, as a function from a batch of requests to response rows;
- whether `record_metadata` succeeds.

## Model

| member | source | states |
|---|---|---|
| Seqs.FindFirst | geocode_milmi.py:29-41 | returns the first index whose element fails the test, and none iff every element passes |
| Batching.Calls | geocode_milmi.py:109 | the number of geocoder calls is at least 1 and is the k with (k-1)·5000 ≤ n < k·5000, so 0 candidates still make one call and 5000 make two |
| Batching.ArraySplit | geocode_milmi.py:111 | `array_split` yields exactly k chunks; their concatenation and sizes are stated by `SplitConcat` and `SplitSizes` |
| Batching.SplitConcat | geocode_milmi.py:111 | concatenating the `array_split` chunks in order gives back exactly the split sequence |
| Batching.SplitSizes | geocode_milmi.py:111 | chunk i has the `array_split` size; any two chunk sizes differ by at most one, with the larger chunks first |
| Batching.ChunkSizesBalanced | geocode_milmi.py:111 | the chunk sizes are non-increasing and the first and last differ by at most one |
| Batching.SplitWithinLimit | geocode_milmi.py:109-111 | with the script's call count, every chunk has at most 5000 rows |
| Batching.Flatten | geocode_milmi.py:127 | `pd.concat` of a single frame is that frame; membership and order of the concatenation are stated by `FlattenMember` and `SplitConcat` |
| Batching.FlattenMember | geocode_milmi.py:127 | an element is in the concatenation of the chunks iff it is in one of the chunks |
| Batching.Strip | geocode_milmi.py:115 | dropping `date` and taking the records keeps one request per chunk row, with that row's id, in order; `FlattenStrip` and `BatchesPartition` state that the batches reassemble to the stripped candidates |
| Batching.BatchesPartition | geocode_milmi.py:109-115 | the request batches number `Calls(n)`, concatenate to the candidates without their dates, hold at most 5000 rows each, and have balanced sizes, larger first |
| Batching.Attach | geocode_milmi.py:119-125 | one response row merges into at most one row per chunk row; which rows and their dates are stated by `AttachMember` and `AttachLength` |
| Batching.Join | geocode_milmi.py:119-125 | the inner merge yields at most one row per pair of a response row and a chunk row; its contents and order are stated by `JoinMember` and `JoinOnUniqueIds` |
| Batching.AttachMember | geocode_milmi.py:119-125 | a response row is merged with a chunk row iff their ids agree, and the merged row carries that chunk row's date |
| Batching.JoinMember | geocode_milmi.py:115-125 | a row is in the inner merge iff its response part is a response row and some chunk row has the same id and its date; response rows whose id was not submitted are dropped |
| Batching.AttachLength | geocode_milmi.py:119-125 | a response row yields one merged row per chunk row with its id |
| Batching.JoinOnUniqueIds | geocode_milmi.py:115-125 | when the chunk's ids are distinct and every response id was submitted, the merge keeps every response row once, in response order |
| Batching.FirstEmptyAnswer | geocode_milmi.py:113-125 | finds the first call whose answer is empty (the merge that raises), with every earlier answer non-empty, and none iff no answer is empty |
| Batching.Sent | geocode_milmi.py:113-125 | the calls actually made are a non-empty prefix of the `array_split` batches, at most `Calls(n)` of them |
| Batching.GeocodeAll | geocode_milmi.py:113-127 | the loop yields no rows (the merge raised) iff some batch's answer is empty; otherwise the concatenation of the joins, whose rows `GeocodeAllSound` traces back |
| Batching.SentEnds | geocode_milmi.py:113-127 | a completed loop made all `Calls(n)` calls; a loop that raised made its last call on the empty answer |
| Batching.StopsAt | geocode_milmi.py:113-125 | an empty answer to call i, after non-empty ones, ends the loop after exactly i+1 calls with no rows |
| Batching.NoCandidatesFail | geocode_milmi.py:109-125 | with no candidates the one call sends an empty batch; an empty answer to it makes the merge raise |
| Batching.GeocodeAllSound | geocode_milmi.py:113-127 | every geocoded row comes from some batch's response and carries the date of a candidate of that batch with the same id |
| Batching.GeocodeAllComplete | geocode_milmi.py:113-127 | when the loop completes no match is lost: a response row of call i and a row of chunk i with the same id give a geocoded row carrying that chunk row's date |
| Batching.SubmitBatches | geocode_milmi.py:107-127 | the loop computes `Calls(n)`, sends the `array_split` batches in order (at most 5000 rows each) and stops after the first empty answer with no rows; when none is empty it has sent every batch, which reassemble to the candidates, and returns the concatenated joins |
| Fips.Decimal | geocode_milmi.py:133-144 | the `Int64`-to-string cast gives a non-empty digit string; `DecimalRoundTrip`, `DecimalCanonical` and `DecimalFits` state its value, its canonical form and its width |
| Fips.ZFill | geocode_milmi.py:153-156 | `zfill(s, w)` has length max(\|s\|, w); `ZFillIdentity`, `ZFillShape` and `ZFillKeepsValue` state its contents |
| Fips.ZFillIdentity | geocode_milmi.py:153-156 | `zfill` leaves a string of at least the width unchanged, so it never truncates |
| Fips.ZFillShape | geocode_milmi.py:153-156 | for a digit string, `zfill` is w-\|s\| zeros followed by the original digits |
| Fips.ZFillKeepsValue | geocode_milmi.py:153-156 | zero-padding a digit string keeps its numeric value |
| Fips.DecimalRoundTrip | geocode_milmi.py:133-144 | the decimal string of n is all digits and parses back to n |
| Fips.DecimalCanonical | geocode_milmi.py:133-144 | the decimal string is non-empty and has no leading zero unless n is 0 |
| Fips.DecimalFits | geocode_milmi.py:133-144 | the decimal string of n fits in w ≥ 1 characters iff n < 10^w |
| Fips.PaddedFragmentLength | geocode_milmi.py:133-156 | a padded fragment is at least w long, and exactly w long iff n < 10^w |
| Fips.PaddedFragmentValue | geocode_milmi.py:133-156 | a padded fragment is all digits and parses back to the integer |
| Normalize.PadFragment | geocode_milmi.py:133-156 | a fragment is present after the string cast and `zfill` iff it was present; when present it is a digit string of at least the width that parses back to the integer |
| Normalize.BlockGeoid | geocode_milmi.py:160 | `block_geoid` is present iff all four fragments are present |
| Normalize.GeoidLengthExact | geocode_milmi.py:133-160 | a present `block_geoid` is at least 15 long, and exactly 15 iff state < 100, county < 1000, tract < 10^6 and block < 10^4 |
| Normalize.GeoidDecode | geocode_milmi.py:153-160 | a 15-character `block_geoid` splits at 2/5/11 into the four fragments, which parse back to state, county, tract and block |
| Normalize.GeoidExample | geocode_milmi.py:153-160 | state 26, county 65, tract 1, block 2 give `block_geoid` "260650000010002" |
| Normalize.NormalizeRow | geocode_milmi.py:145-161 | an output row keeps the merged row's id and date, takes `match_type` from `matchtype`, has geom = point(x = lon, y = lat), and its `block_geoid` is the padded concatenation `BlockGeoid` of the response's fragments, null iff some fragment is null |
| Normalize.NormalizeFrame | geocode_milmi.py:145-168 | the output has exactly the columns id, date, match_type, block_geoid, geom, one row per merged row in order, with `match_type` taken from `matchtype`, geom = point(x = lon, y = lat), and `block_geoid` equal to the padded concatenation `BlockGeoid` of that row's fragments (null iff some fragment is null) |
| Schema.CheckColumns | geocode_milmi.py:29-36 | no column error iff the columns are exactly the five schema columns (strict), and a reported error names a column that is extra or missing |
| Schema.CheckRows | geocode_milmi.py:29-41 | no row error iff every row has a non-null id and date and a non-null `block_geoid` is 15 long; a reported error names a row that fails that check |
| Schema.Validate | geocode_milmi.py:25-41 | validation succeeds iff the frame conforms (strict columns, non-null id and date, 15-character `block_geoid` where present), returns the frame unchanged, and a failure names a real violation, so one bad row rejects the whole frame |
| Schema.NormalizedFrameValid | geocode_milmi.py:25-41 | a normalised frame passes iff every row has a date and every row with all four fragments has them within their widths |
| Schema.UnmatchedRowConforms | geocode_milmi.py:29-41 | a dated row whose geocode left a fragment null has a null `block_geoid` and passes the schema |
| Pipeline.SelectCandidates | geocode_milmi.py:93-102 | the delta rows are used when the delta query succeeds; all rows when it raises `ProgrammingError`; any other error aborts |
| Pipeline.Finish | geocode_milmi.py:177-211 | on a schema failure the run returns -1 with no write; a failing `record_metadata` raises before any commit; otherwise the metadata record, its commit and, unless metadata-only, the append of the validated frame, in that order |
| Pipeline.RunSpec | geocode_milmi.py:58-211 | an edition date the configuration does not list raises with no effect; a delta-query error other than `ProgrammingError` raises with no effect; the run raises from the merge iff candidates were selected and some answer was empty; it returns normally iff a frame was produced, validation passed and the metadata was recorded; it returns -1 iff a frame was produced and validation failed |
| Pipeline.RunCalls | geocode_milmi.py:107-127 | once candidates are selected, the run's first effects are the calls of the batches actually sent, in order, and no later effect is a call; all `Calls(n)` batches are sent unless the merge raised, and then the empty-answer call is the run's last effect |
| Pipeline.NoCandidatesRaise | geocode_milmi.py:107-125 | with no candidates and an empty answer to the empty batch, the run makes one call and raises from the merge, recording and appending nothing |
| Pipeline.RunOrdering | geocode_milmi.py:107-211 | all geocoder calls come first; every append follows a metadata record and its commit; metadata-only mode never appends; any ending other than a normal return (a -1 return or an exception) leaves only geocoder calls |
| Pipeline.FinishOrdering | geocode_milmi.py:177-211 | after validation, any append follows the record and commit; metadata-only never appends; anything but a normal return writes nothing |
| Pipeline.CallsThenFinish | geocode_milmi.py:113-211 | placing geocoder calls before writes that keep record-and-commit-before-append still keeps it, and puts every call first |
| Pipeline.FinishWrites | geocode_milmi.py:177-211 | a normal finish records exactly one audit record of the frame and appends its rows unless metadata-only; a -1 return or a metadata failure records and appends nothing |
| Pipeline.AuditTrail | geocode_milmi.py:186-211 | the completion trail records exactly one audit record, and appends the rows unless metadata-only |
| Pipeline.CallsWriteNothing | geocode_milmi.py:113-115 | geocoder calls before a sequence of effects add no audit record and no appended row |
| Pipeline.AppendedConcat | geocode_milmi.py:203-209 | the rows of a journal extended by later effects are the old rows followed by the new ones |
| Pipeline.AuditsConcat | geocode_milmi.py:186-200 | the audit records of a journal extended by a run's effects are the old records followed by the run's own |
| Pipeline.RunStartsWithCall | geocode_milmi.py:107-127 | a run's effects are empty or begin with a geocoder call |
| Pipeline.RunWrites | geocode_milmi.py:177-211 | a normal return leaves exactly one audit record of the geocoded frame and appends exactly its rows unless metadata-only; any other ending records and appends nothing |
| Pipeline.GeocodeAndNormalize | geocode_milmi.py:107-168 | sends the batches `Sent` names (all `Calls(n)` of them when no answer is empty) and produces the normalised frame of the merged responses, or no frame when the merge raised |
| Pipeline.Warehouse.Run | geocode_milmi.py:58-211 | `main` returns or raises as `RunSpec` says and appends exactly `RunSpec`'s effects to the journal, so the audit log gains exactly the run's committed records and `employers_geo` exactly its appended rows |
| Pipeline.Warehouse.Conclude | geocode_milmi.py:177-211 | validation, the metadata record, its commit and the append happen as `Finish` says, added to the journal after the geocoder calls |

## Left out

- SQL text, connections, `pd.read_sql`, `to_postgis` and commit mechanics are I/O. The delta query and the select-all query are inputs, and the append is an effect on the journal.
- The select-all fallback query cannot fail in the model. An exception there would escape `main` like the other-error case.
- The delta query joins on `license_number` and the script then renames columns it did not select (`geocode_milmi.py:68-105`). Candidates are modelled directly as records with an id, address fields and a date.
- The `censusgeocode.addressbatch` HTTP call is a foreign network service. It is a function parameter from a request batch to response rows, and its failures are not modelled. A non-empty answer is assumed to carry an `id` column.
- The conversion of the service's text fragments to `Int64` is not modelled. Fragments are given as optional non-negative integers.
- Reading `metadata.toml` is I/O. Its contents enter only as the set of edition dates listed for the table; the value looked up on line 62 is never used afterwards.
- `record_metadata` is not modelled beyond whether it succeeds. Its internals, logging and the click command line are not part of this model.
- The CSV and GeoJSON debug writes (`geocode_milmi.py:128, 172`) are file I/O.
- Coordinates are opaque values, not floats. The CRS `EPSG:4326` and geopandas point construction are library internals. `geom` is always a point whose coordinates may be missing.
- pandera's `coerce` conversion and its exact error objects are not modelled. Without `lazy=True` pandera raises one `SchemaError` at the first failed check; the validator also reports a single violation, but does not promise it is the one pandera would report first.
- `load_milmi.py` has no logic of its own, and it references a name it never defines.
- Batching.SubmitBatches: the loop's log lines are not modelled.
- Pipeline.Warehouse.Run: the audit log and the table are views of one effect journal, not separate databases. The model does not capture a commit of the metadata being seen by the other connection.
