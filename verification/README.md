# COVE verification model

Dafny models of four parts of COVE, with proofs of what each promises.

- **VarBytes, NumCode and Boolean export to Arrow.** One small specification (parse the
  length prefixes, keep the selected rows, drop the bytes of null rows, sum the lengths) and every
  hand-optimised route measured against it: generic, one-pass, fixed-length, two-pass, forward
  scan and views. On top of it, validating a whole buffer once instead of row by row, the ASCII
  mask, row lists and bitsets, and bit packing 16 rows at a time.
- **The columnar converter.** A nested column denotes a list of values; appending batches,
  reordering, stable clustering, cutting into segments and pages, writing page trees and reading
  them back are all stated on that denotation. Lookup, exact-set and composite-zone indexes and
  the aggregates agree with a scan.
- **The AI training sidecar.** An append-only payload log with reference tables, built by a
  class whose every method keeps referential integrity; the validation every reader repeats;
  canonical JSON; sample and split identity; the ustar writer of the WebDataset export ("ustar Interchange Format", utility
  `pax`, POSIX.1).
- **The object store harness.** Range coalescing and the range cache.

`Machine`, `Bits` and `LittleEndian` hold the shared vocabulary. Bytes and words are bounded
integers, so every wrap-around and every check is written out. Loops of the sources are loops
here; functions specify what they compute and the lemmas say what that means.

## Findings

What the code does not do, with the input that shows it and the exact condition under which it
does.

| property | fails on | holds exactly when |
|---|---|---|
| every well-formed nested column can be written | one row of a list of lists (`PageEmit.ListOfListsIsRefused`) | no child of the column is itself a container, and counts and scalars fit (`PageEmit.EmitsIff`) |
| a written nested page can be read | a map row with a repeated key, a struct without fields, a list of Int64 holding -1 (`PageRoundTrip.RepeatedKeyIsUnreadable`, `PageRoundTrip.EmptyStructIsUnreadable`, `PageRoundTrip.NegativeItemIsUnreadable`) | `Readable`: structs have fields, no map row repeats a key, child rows fit Arrow's offsets, and the selected rows of every leaf pass its export: no negative signed 64-bit code, codes within narrow types, VarBytes within i32, checked text well-formed, Boolean bytes 0 or 1 (`PageRoundTrip.PageReadsBack`) |
| a corrupt VarBytes page is refused | row 0 of a two-row page with a torn second row (`VarBytesExport.ForwardAcceptsCorruptTail`) | the forward scan is not taken, or the selection is not empty and either includes the last row or reaches past what is readable (`VarBytesExport.CorruptPageAcceptedIff`) |
| all routes accept the same pages | an empty selection of a page whose null bitmap is unreadable (`VarBytesExport.EmptySelectionSkipsBitmap`) | on pages that parse: unless that selection takes the forward scan, always (`VarBytesExport.RoutesAgree`) |
| signed codes export the same by copying and by the fallback | any present code of 2^63 or more | every present code is below 2^63 (`NumCodes.DirectVersusFallback`) |
| signed codes that can be copied can be retained as the page's bytes | a code of 2^63 or more in a null slot | the codes in null slots are below 2^63 too and the null buffer can be built (`NumCodes.RetainedVersusCopied`) |
| composite zones cover all rows | the last row, once the last zone starts at 2^32 or later | the last zone starts below 2^32 (`Zones.ZonesLoseRowsIff`, `Zones.ZonesDecodeIff`) |
| Decimal128 columns are clustered by value | 256 and 1 (`DecimalOrder.DecimalOrderIsNotNumeric`) | lowest and highest differing byte of every two values compare alike (`DecimalOrder.DecimalColumnIff`) |
| a memo key stands for one model actor | provider d and endpoint e NUL f against provider d NUL e and endpoint f (`TrainingSidecar.ActorKeysCollide`) | none of the five key fields holds a NUL (`TrainingSidecar.ActorKeyUniqueIff`) |
| rows that pass the duplicate check, and so a dry run, can be imported | two rows with `sample_id` 7 (`TrainingImport.RepeatedNumberIsRefused`) | numeric ids differ as well, 0 counting as 1, and texts, kinds and settings are in range (`TrainingImport.ImportValues`, `SidecarValidation.ValidatesIff`, `TrainingImport.NumberedIdsUniqueIff`) |
| what `write_tar_entry` writes reads back | a member named a NUL b (`Ustar.NulCutsName`) | no name holds a NUL (`Ustar.ArchiveRoundTrip`); the names the export gives it never do |
| a lookup index can be built | a key at position 2^16 of a morsel (`LookupIndex.LateRowIsUnindexable`) | every keyed row's position fits (`LookupIndex.BuildLookupIndex`) |

A list, map or struct column in the declared cluster columns is compared by row position, which
the cluster order keeps as it is. The last test of the forward scan on the number of offsets, and
the one-pass route's test of a prefix's bounds, can never fire.

## Model

| member | source | states |
|---|---|---|
| VarBytes.ParseRanges | crates/cove-arrow/src/arrow.rs:1203-1222 | the ranges returned are the prefix parse of the whole page, in either prefix layout, or that parse's error: this is the specification every route below is measured against |
| VarBytes.ExportDenotes | crates/cove-arrow/src/arrow.rs:1409-1458 | what an Arrow reader gets from the exported buffers: slice i is the bytes of cell i, and the validity bit of row i is set exactly when cell i is present |
| VarBytesRoutes.MaterializeGeneric | crates/cove-arrow/src/arrow.rs:1409-1458 | the generic loop succeeds exactly when the page parses, its nulls are readable and the present bytes fit i32, and then exports all cells; both layouts, any bitmap |
| NoNullRoutes.PositionInvariant | crates/cove-arrow/src/arrow.rs:1476-1585 | while a page without nulls is scanned, pos == 4 * row + write |
| NoNullRoutes.OnePassPrefix | crates/cove-arrow/src/arrow.rs:1476-1585 | the next row's prefix is always inside the page, so a bounds test on it can never fire |
| NoNullRoutes.FixedLen | crates/cove-arrow/src/arrow.rs:1144-1170 | a length is reported only for pages whose every prefix is that length and whose size is rows * (length + 4); an error means the page cannot parse |
| NoNullRoutes.MaterializeOnePass | crates/cove-arrow/src/arrow.rs:1476-1585 | the one-pass route, writing offsets and values in place, succeeds exactly when the parse consumes the whole page, the total fits i32 and (when strict) every row is well-formed text; it yields the cells of the parse |
| NoNullRoutes.MaterializeNoNulls | crates/cove-arrow/src/arrow.rs:1460-1474 | with or without the fixed-length shortcut the no-null entry points meet that same contract |
| SelectedRoutes.MaterializeSelected | crates/cove-arrow/src/arrow.rs:1661-1743 | the two-pass route exports exactly the visited rows, and fails exactly when the selection is refused or a visited row is not exportable |
| SelectedRoutes.ForwardOnParsedPage | crates/cove-arrow/src/arrow.rs:1745-1835 | on a page that parses fully, the scan that stops at the last selected row sees the same cells as parse-all-then-select and needs nothing more |
| SelectedRoutes.MaterializeForward | crates/cove-arrow/src/arrow.rs:1745-1835 | the forward scan is taken for strictly ascending row lists and bitsets, fails exactly when the page is not readable up to the last selected row, and otherwise yields exactly the selected cells |
| VarBytesExport.Materialize | crates/cove-arrow/src/arrow.rs:1224-1237 | the dispatcher over all routes: when it succeeds, and the exported cells |
| VarBytesExport.RoutesAgree | crates/cove-arrow/src/arrow.rs:1224-1237 | on a parseable page, for every selection, the route taken accepts what the reference accepts and yields its cells; the one difference is an empty selection on the forward route |
| VarBytesExport.EmptySelectionSkipsBitmap | crates/cove-arrow/src/arrow.rs:1745-1760 | a one-row page with an unreadable bitmap that the reference refuses for every selection and the forward scan exports for the empty one |
| VarBytesExport.CorruptPageAcceptedIff | crates/cove-arrow/src/arrow.rs:1745-1835 | a page that does not parse is exported exactly when the forward scan is taken and the selection is empty, or leaves the last row out and is readable up to its own last row |
| VarBytesExport.ForwardAcceptsCorruptTail | crates/cove-arrow/src/arrow.rs:1745-1835 | a two-row page with a torn second row on which selecting row 0 succeeds |
| VarBytesExport.MaterializeUtf8 | crates/cove-arrow/src/arrow.rs:1239-1272 | under strict policies only well-formed text is returned, and a readable page is refused exactly when some present exported row is not well-formed; the ASCII mask shortcut changes nothing |
| ByteViews.ViewRoundTrip | crates/cove-arrow/src/arrow.rs:891-923 | dereferencing the 16-byte view built for a range gives the bytes of the range, inline or buffered, and still does after the buffer grows; a view exists exactly when length and offset fit u32 |
| ByteViews.MaterializeView | crates/cove-arrow/src/arrow.rs:1274-1407 | all view routes, over the page's own bytes or over copies, denote the cells of the same specification |
| Utf8.CutAtBoundary | crates/cove-arrow/src/arrow.rs:939-942 | cutting well-formed UTF-8 (section 4 of RFC 3629) anywhere but before a continuation byte leaves two well-formed texts |
| Utf8.WholeBufferIffEveryRow | crates/cove-arrow/src/arrow.rs:932-953 | one well-formed buffer whose rows start on characters is the same as every row slice being well-formed on its own |
| Utf8.ValidateOffsets | crates/cove-arrow/src/arrow.rs:932-953 | for offsets that start at 0, never decrease and end at the buffer length, it accepts exactly when every row slice is well-formed UTF-8 |
| ByteCopy.CopyAsciiMask | crates/cove-arrow/src/arrow.rs:992-1142 | the overlapping-word copy writes exactly the row and nothing else, for any length, and its mask is zero exactly when every byte is ASCII |
| Validity.PackedBit | crates/cove-arrow/src/arrow.rs:603-613 | bit i of the packed validity bytes is flag i |
| Validity.PackedUnique | crates/cove-arrow/src/arrow.rs:615-655 | the packed form is the only byte string that holds the flags, so any builder that sets the right bits built it |
| Validity.ArrowValidityBuilder.Append | crates/cove-arrow/src/arrow.rs:632-640 | appends one flag, in place |
| Validity.ArrowValidityBuilder.Finish | crates/cove-arrow/src/arrow.rs:642-654 | no buffer when nothing is null, else exactly the appended flags and their null count |
| RowSelection.ForEachRow | crates/cove-arrow/src/arrow.rs:161-202 | every selection form is visited as specified: all rows, the row list with its range check, or the set bits with length and word-count checks |
| RowSelection.VisitBitset | crates/cove-arrow/src/arrow.rs:181-198 | the trailing-zero loop visits the rows of `BitsetRows`, clearing one bit a step |
| RowSelection.BitsetRowsExact | crates/cove-arrow/src/arrow.rs:181-198 | those rows strictly ascend and are exactly the set bits below the length; tail bits and surplus words are ignored |
| RowSelection.SelectedLen | crates/cove-arrow/src/arrow.rs:124-133 | the length is the number of rows visited; a refused bitset is refused here too |
| RowSelection.CountBitsetRows | crates/cove-arrow/src/arrow/selection_utils.rs:3-20 | counting bits counts exactly the visited rows, and fails only for too few words |
| RowSelection.IsAllRows | crates/cove-arrow/src/arrow.rs:113-122 | true exactly for selections that visit 0, 1, ..., n - 1 |
| RowSelection.LastSelectedRow | crates/cove-arrow/src/arrow.rs:1845-1857 | scanning words from the end finds the greatest selected row, if there is one |
| NumCodes.CollectNumCodes | crates/cove-arrow/src/arrow.rs:2934-3157 | for all rows, a row list or a bitset, signed or not, the result is the export of the visited rows, so a bitset equals its row list; exact success condition |
| NumCodes.SignedRoundTrip | crates/cove-arrow/src/arrow.rs:3063-3068 | writing an i64 and reading it by the fallback is the identity on all of i64; the direct route is it on the non-negative ones and refuses the rest |
| NumCodes.DirectVersusFallback | crates/cove-arrow/src/arrow.rs:3832-3844 | copying direct export and fallback agree exactly when every present code is below 2^63 |
| NumCodes.RetainCodes | crates/cove-arrow/src/arrow.rs:2808-2824 | the retained route keeps the page's bytes exactly when every code, null slots included, is a non-negative i64 and the null buffer can be built |
| NumCodes.RetainedVersusCopied | crates/cove-arrow/src/arrow.rs:1859-1905 | a page that can be copied is retained exactly when its null slots are in range too and its null buffer can be built; then nulls and present values are the same |
| Booleans.PackChunk16 | crates/cove-arrow/src/arrow.rs:3196-3222 | one or-test and shift-or packs 16 rows into two bytes, and fails exactly when some byte is neither 0 nor 1 |
| Booleans.CollectBools | crates/cove-arrow/src/arrow.rs:3163-3329 | all, row-list and bitset collectors pack exactly the visited flags, 16 at a time or not; exact success condition |
| LeafExport.ExportLeaf | crates/cove-arrow/src/arrow.rs:332-401 | for every leaf type and selection, the route the dispatcher takes succeeds exactly when the leaf's export is possible and yields the selected cells |
| LeafRoundTrip.LeafReadsBack | crates/cove-arrow/src/arrow.rs:1859-1951 | exporting listed rows of a written leaf gives those rows of the column, and fails exactly when one of them is out of its Arrow type's range |
| NestedAppend.SliceDenotes | crates/cove-arrow/src/parquet.rs:3366-3392 | slicing an Arrow array of any depth only renumbers its rows, wherever its offsets start |
| NestedAppend.AppendArray | crates/cove-arrow/src/parquet.rs:272-382 | appending level by level is the specification of append, for success and for every error |
| NestedAppend.AppendDenotes | crates/cove-arrow/src/parquet.rs:272-382 | a successful append keeps the shape invariant at every level (offsets one longer than the rows, from 0, monotone, ending at the child rows; equal field lengths; one canonical key per key row) and denotes old rows then batch rows |
| NestedAppend.AppendAllDenotes | crates/cove-arrow/src/parquet.rs:272-382 | after any sequence of successful appends the column denotes the concatenation of the batches |
| NestedReorder.ReorderedChildOrder | crates/cove-arrow/src/parquet.rs:3415-3439 | new offsets and child rows for any listed rows; fails exactly when the child rows leave u32 |
| NestedReorder.Reorder | crates/cove-arrow/src/parquet.rs:582-615 | reordering level by level is the specification of reorder, for success and for every error |
| NestedReorder.ReorderDenotes | crates/cove-arrow/src/parquet.rs:582-615 | reordering a column of any depth by any in-range rows, when it succeeds, makes row i denote old row order[i] and keeps the shape invariant |
| NestedReorder.PermutationNeverFails | crates/cove-arrow/src/parquet.rs:582-615 | a permutation of the rows can always be applied |
| NestedReorder.ReorderComposes | crates/cove-arrow/src/parquet.rs:582-615 | reordering by p and then by q is reordering by their composition, failures included |
| NestedWidths.AppendKeepsWidths | crates/cove-arrow/src/parquet.rs:272-382 | fixed-size lists keep their width through appends |
| NestedWidths.ReorderKeepsWidths | crates/cove-arrow/src/parquet.rs:582-615 | fixed-size lists keep their width through reordering |
| Layouts.ListRoundTrip | crates/cove-core/src/encoding/nested.rs:63-102 | a list layout reads back exactly when its offset count fits the u32 it is cast to |
| Layouts.MapRoundTrip | crates/cove-core/src/encoding/nested.rs:270-352 | a map layout reads back, offsets and canonical keys, exactly when its counts and key lengths fit their fields |
| PageEmit.PageWriter.PushPageNode | crates/cove-arrow/src/parquet.rs:420-552 | appends the preorder and buffer order of the range's tree to the two growing lists, or fails exactly as building the tree fails |
| PageEmit.EmitsIff | crates/cove-arrow/src/parquet.rs:420-552 | a range is written exactly when row count and ids fit, every scalar fits its width and no child is itself a container |
| PageEmit.ListOfListsIsRefused | crates/cove-arrow/src/parquet.rs:505-548 | a well-formed one-row list of lists that is never written |
| PageEmit.EncodePage | crates/cove-arrow/src/parquet.rs:403-418 | a written page parses back to the very tree it came from |
| PageTree.PayloadTreeExact | crates/cove-core/src/page_payload.rs:739-782 | two flat lists parse as a tree exactly when they are its preorder and buffer order with honest counts: nothing is left over and nothing else parses |
| PageTree.ParseSubtree | crates/cove-core/src/page_payload.rs:756-782 | the two-cursor parser returns that parse and its remainders |
| PageRoundTrip.WrittenTreeReadsBack | crates/cove-arrow/src/arrow/nested.rs:196-401 | for every schema that describes the column, reading any in-range rows from a written tree gives exactly those rows, nulls and map keys included, and fails exactly when they are not readable: containers as above, leaves by the condition of `LeafReadsBack` |
| PageRoundTrip.PageReadsBack | crates/cove-arrow/src/parquet.rs:403-580 | write, take apart by counts alone, read by any schema that describes the column: the identity on every readable range, an error on every other |
| PageRoundTrip.NegativeItemIsUnreadable | crates/cove-arrow/src/arrow.rs:3063-3068 | a one-row list of Int64 holding -1 that is written and then refused |
| PageRoundTrip.RepeatedKeyIsUnreadable | crates/cove-core/src/encoding/nested.rs:223-252 | a one-row map with a repeated key that is written and then refused, whatever its schema |
| PageRoundTrip.EmptyStructIsUnreadable | crates/cove-core/src/encoding/nested.rs:115-141 | a row of a struct without fields that is written and then refused |
| Scalars.EncodeRows | crates/cove-arrow/src/parquet.rs:205-254 | the page bytes are the concatenation of the encoded rows, or the first row's error |
| Scalars.PageRoundTrip | crates/cove-arrow/src/parquet.rs:205-254 | decoding them gives exactly the rows back, with nothing left over |
| RowOrder.ClusterOrderTotal | crates/cove-arrow/src/parquet.rs:1295-1317 | the cluster comparison is a strict total order on rows, for every column type |
| RowOrder.SignedOrderIsNumeric | crates/cove-arrow/src/parquet.rs:2876-2911 | signed codes of every width compare by their numeric value |
| DecimalOrder.NumericOrderIff | crates/cove-arrow/src/parquet.rs:1315 | raw byte order of two little-endian values is signed numeric order exactly when their lowest and their highest differing byte, the sign byte as signed, compare alike |
| DecimalOrder.DecimalColumnIff | crates/cove-arrow/src/parquet.rs:1315 | a Decimal128 column is clustered numerically exactly when all pairs of its present values are alike in that sense |
| DecimalOrder.OneByteAgrees | crates/cove-arrow/src/parquet.rs:1315 | values that differ in a single byte below the sign byte are always ordered numerically |
| DecimalOrder.DecimalOrderIsNotNumeric | crates/cove-arrow/src/parquet.rs:1315 | 256 is put before 1 |
| Clustering.ApplyStableClustering | crates/cove-arrow/src/parquet.rs:1404-1457 | all columns are reordered in place by one order, or nothing changes and the first unknown name is the error |
| Clustering.ClusterOrderUnique | crates/cove-arrow/src/parquet.rs:1422-1445 | the order is sorted on the declared columns, nulls first, ties in source order, and no other permutation is |
| Clustering.ClusteredDenotes | crates/cove-arrow/src/parquet.rs:1422-1457 | every column, flat or nested, gets the same permutation: the row tuples are the old ones, as a multiset and in cluster order |
| Clustering.ClusteringIdempotent | crates/cove-arrow/src/parquet.rs:1404-1457 | clustering twice is clustering once |
| Segments.BuildSegmentLayouts | crates/cove-arrow/src/parquet.rs:163-192 | the layouts are the tiles of the rows, one empty segment for no rows; fails exactly for a zero step or an id past u32 |
| Segments.SegmentsPartition | crates/cove-arrow/src/parquet.rs:163-192 | every row lies in exactly the segment row / step |
| Segments.SegmentPosition | crates/cove-arrow/src/parquet.rs:2722-2738 | finds the segment that covers the row, if any does |
| Segments.RowRefInverts | crates/cove-arrow/src/parquet.rs:2722-2738 | row_start + morsel_id * M + row_in_morsel is the row |
| Segments.RowRefsDistinct | crates/cove-arrow/src/parquet.rs:2722-2738 | distinct rows have distinct references |
| Segments.SegmentTotals | crates/cove-arrow/src/parquet.rs:1834-1846 | per-segment totals of any measure add up to the whole column's |
| Pages.PageSpecsRange | crates/cove-arrow/src/parquet.rs:1148-1229 | the page loop returns the pages of the range, or the first error |
| Pages.PagesTileRange | crates/cove-arrow/src/parquet.rs:1148-1229 | row r of a segment lies in page (r - start) / morsel and in no other |
| Pages.PageCounts | crates/cove-arrow/src/parquet.rs:1166-1210 | null and non-null rows make up every page and its flag says so |
| Pages.FlatPageSplitsBack | crates/cove-arrow/src/parquet.rs:1195-1210 | a flat page splits back into the null bitmap and the value bytes it was made of |
| PageExport.VarBytesPageBack | crates/cove-arrow/src/parquet.rs:1195-1210 | exporting a written VarBytes page gives the column's rows and nulls; possible exactly when they fit i32 offsets |
| PageExport.CodePageBack | crates/cove-arrow/src/parquet.rs:205-254 | exporting a written NumCode page gives the column's codes and nulls; the signed route takes it exactly when no present code reaches 2^63 |
| PageExport.BoolPageBack | crates/cove-arrow/src/arrow.rs:3224-3260 | exporting a written Boolean page gives the column's flags and nulls, through the 16-wide packing |
| Keys.UniqueKeys | crates/cove-arrow/src/parquet.rs:1794-1806 | collects the distinct keys of the non-null rows in ascending order |
| Keys.ExactSetAgreesWithScan | crates/cove-arrow/src/parquet.rs:2526-2551 | the exact set strictly ascends and holds k if and only if some non-null row has key k |
| LookupIndex.BuildLookupIndex | crates/cove-arrow/src/parquet.rs:2661-2720 | keys ascend, each maps to exactly the non-null rows holding it in ascending order, `Unique` is declared exactly when no key repeats; fails exactly when some row's position does not fit its reference |
| LookupIndex.LateRowIsUnindexable | crates/cove-arrow/src/parquet.rs:2661-2720 | a column with a key at position 2^16 of a morsel has no index |
| LookupIndex.LookupFindsRow | crates/cove-arrow/src/parquet.rs:2661-2738 | a key's entry holds a row's reference if and only if the row holds the key |
| Zones.ExtremesExact | crates/cove-arrow/src/parquet.rs:2588-2602 | a zone's bounds are the least and the greatest key of its rows in unsigned order |
| Zones.BuildCompositeZones | crates/cove-arrow/src/parquet.rs:2553-2627 | the entry bytes of all zones, nothing for an unkeyable column or no rows, and the three errors |
| Zones.ZonesDecodeIff | crates/cove-arrow/src/parquet.rs:2585-2606 | the entry bytes decode to the zones that were built exactly when the last zone starts below 2^32 |
| Zones.ZonesNeverUnderInclude | crates/cove-arrow/src/parquet.rs:2553-2627 | while it does, the decoded zones tile all rows and every key of a row lies within its zone's bounds for its column |
| Zones.ZonesLoseRowsIff | crates/cove-arrow/src/parquet.rs:2585-2586 | the last row is covered by some decoded zone exactly when it does |
| Aggregates.SegmentCounts | crates/cove-arrow/src/parquet.rs:2014-2033 | row, null and non-null counts of a segment add up and are exact; fails exactly past u32 |
| Aggregates.BoolCounts | crates/cove-arrow/src/parquet.rs:2187-2207 | true and false counts are exact and make up the non-null rows |
| Aggregates.CheckedSum | crates/cove-arrow/src/parquet.rs:2126-2185 | succeeds exactly when every prefix stays in 128 bits and the result fits its type, and is the exact sum |
| Aggregates.IntegerSumsAccumulate | crates/cove-arrow/src/parquet.rs:2126-2185 | for u32-bounded segments the accumulator cannot overflow, so an integer sum succeeds exactly when the exact sum fits 64 bits |
| Aggregates.MinMaxRows | crates/cove-arrow/src/parquet.rs:2063-2090 | the first row with the least and the first row with the greatest value, none without rows |
| Aggregates.KeyCounts | crates/cove-arrow/src/parquet.rs:2283-2299 | the key counts of the rows, in key order |
| Aggregates.HistogramExact | crates/cove-arrow/src/parquet.rs:2209-2226 | histogram keys strictly ascend, every count is positive and exact, and together they count the non-null rows |
| Synopsis.TopIsBest | crates/cove-arrow/src/parquet.rs:2228-2240 | the k best keys by count descending and key ascending, in that order; whatever is left out ranks below |
| Synopsis.BuildSynopsis | crates/cove-arrow/src/parquet.rs:1834-2002 | one entry per segment with counts, min/max, Boolean counts, sum, histogram and top keys as requested; none when nothing is produced; exact failure condition |
| Synopsis.SynopsisAddsUp | crates/cove-arrow/src/parquet.rs:1834-2002 | null counts, Boolean counts and sums of the segments add up to the whole column's |
| Synopsis.HistogramsAddUp | crates/cove-arrow/src/parquet.rs:2209-2226 | per-segment histograms add up, key by key |
| CanonicalJson.CanonicalRoundTrip | crates/cove-ai-adapters/src/lib.rs:3250-3282 | reading canonical text back gives the value with its members in key order, and nothing left over |
| CanonicalJson.CanonicalTextIdentifies | crates/cove-ai-adapters/src/lib.rs:3250-3282 | two values have equal canonical text exactly when they are equal up to object member order at every level |
| SampleIdentity.SplitKeyIdentifies | crates/cove-ai-adapters/src/lib.rs:3180-3185 | rows without an own id have equal split keys exactly when they are equal up to member order, wherever they stand |
| SampleIdentity.SplitIsStable | crates/cove-ai-adapters/src/lib.rs:3180-3199 | reordering members or inserting rows before it never moves a row to another split |
| SampleIdentity.ImportIds | crates/cove-ai-adapters/src/lib.rs:1247-1257 | the text check: it passes exactly when no two text ids are equal, and gives the ids; what follows it is `TrainingImport.ImportValues` |
| SampleIdentity.NumberedRowsPass | crates/cove-ai-adapters/src/lib.rs:3201-3210 | rows numbered by `sample_id` always pass the text check, and two of them get one sample id exactly when their numbers, 0 counting as 1, are equal |
| SidecarTables.RefsTile | crates/cove-ai-adapters/src/lib.rs:2131-2161 | payload references are dense from 1, tile the payload without gap or overlap, and each reads back the bytes pushed for it |
| SidecarTables.GrowthKeepsIntegrity | crates/cove-ai-adapters/src/lib.rs:1701-2255 | growing the tables with entries in order never breaks an older entry |
| SidecarBuilder.Builder.PushPayloadRef | crates/cove-ai-adapters/src/lib.rs:2131-2161 | no reference for no bytes, else the next one; fails exactly when the counter is used up, changing nothing |
| SidecarBuilder.Builder.PushPolicyRef | crates/cove-ai-adapters/src/lib.rs:2202-2230 | the policy names its payload and the digest of that very payload |
| SidecarBuilder.Builder.PushModelActor | crates/cove-ai-adapters/src/lib.rs:2327-2389 | an actor entry whose texts spell the key, new only for a new key |
| SidecarBuilder.OneActorPerKey | crates/cove-ai-adapters/src/lib.rs:2327-2389 | no two actor entries ever spell the same key |
| SidecarBuilder.Builder.PushDecodingProfile | crates/cove-ai-adapters/src/lib.rs:2391-2432 | one profile per canonical text, none for a value that is no object |
| SidecarBuilder.Builder.PushGeneratorProvenance | crates/cove-ai-adapters/src/lib.rs:2258-2324 | one record naming the sample, with actor, prompt and profile stored; its id is max(sample id, 1); an unreadable confidence is an error |
| SidecarBuilder.Builder.PushLabels | crates/cove-ai-adapters/src/lib.rs:1908-1935 | labels get consecutive ids and lead to their text; the first id is the sample's label reference if it fits u32; an unreadable confidence is an error |
| TrainingSidecar.ImportSample | crates/cove-ai-adapters/src/lib.rs:1804-1980 | every reference of the finished entry leads to what the sample brought, and what was stored for earlier samples stays; fails on an unreadable pair, confidence or rating, and on nothing else while references last |
| TrainingSidecar.SampleKeeps | crates/cove-ai-adapters/src/lib.rs:1804-1980 | a stored sample stays stored through any later growth |
| TrainingSidecar.BuildTables | crates/cove-ai-adapters/src/lib.rs:1701-2100 | every reference in every table is zero or issued, the payload is the concatenation of the pushes, the tables hold exactly what the samples brought, all samples are stored in order, groups, splits, profile and epoch plans are as specified; while references last it fails exactly when some pair, confidence or rating is unreadable |
| SidecarValidation.Validate | crates/cove-core/src/artifact/coveai.rs:902-1560 | the loops over all tables accept exactly the tables whose ids are unique and not zero, whose references are zero or an id of the table meant, and whose entries are in range |
| SidecarValidation.ValidatesIff | crates/cove-core/src/artifact/coveai.rs:902-1560 | whatever the import builds validates exactly when sample ids are distinct and not zero, every stored text is below 2^32 bytes and label kinds, review kinds and top-p are in range: no reference, digest, policy, actor or provenance id it makes is ever at fault |
| SidecarValidation.BuildTrainingSidecar | crates/cove-core/src/artifact/coveai/wire_write.rs:1428-1436 | the build ends in that validation: while references last it succeeds exactly for readable and admissible samples |
| TrainingImport.ImportValues | crates/cove-ai-adapters/src/lib.rs:1237-1310 | a dry run succeeds exactly when the text ids differ; an import, while references last, exactly when besides the samples are readable and admissible |
| TrainingImport.NumberedIdsUniqueIff | crates/cove-core/src/artifact/coveai/validation.rs:43-73 | sample ids are never zero, and those of rows numbered by `sample_id` are unique exactly when the numbers differ, 0 counting as 1 |
| TrainingImport.RepeatedNumberIsRefused | crates/cove-core/src/artifact/coveai.rs:1003-1006 | two rows with `sample_id` 7 pass the text check and are never admissible |
| TrainingSidecar.SamplesReadBack | crates/cove-ai-adapters/src/lib.rs:1804-1980 | following an entry's references through the payload ranges gives the sample's input, target, metadata, source, evidence and license text |
| TrainingSidecar.GroupsReadBack | crates/cove-ai-adapters/src/lib.rs:1719-1728 | two entries share a non-zero dedup reference exactly when their samples share a key, and it names one group led by the smallest id |
| TrainingSidecar.SplitsReadBack | crates/cove-ai-adapters/src/lib.rs:2043-2072 | every sample's split reference names the entry that counts it, and the three counts total the samples |
| TrainingSidecar.ActorKeyIdentifies | crates/cove-ai-adapters/src/lib.rs:2338-2342 | without NULs in the first four fields, equal keys mean equal fields |
| TrainingSidecar.ActorKeyUniqueIff | crates/cove-ai-adapters/src/lib.rs:2338-2342 | a generator's key stands for it alone exactly when none of its five key fields holds a NUL |
| TrainingSidecar.ActorKeysCollide | crates/cove-ai-adapters/src/lib.rs:2338-2342 | for any other fields, an endpoint x NUL y and a provider ending in NUL x with endpoint y give two different actors one key |
| Ustar.ChecksumFits | crates/cove-ai-adapters/src/lib.rs:3340-3344 | the header sum always fits six octal digits |
| Ustar.WriteTarEntry | crates/cove-ai-adapters/src/lib.rs:3322-3350 | the header is filled in place field by field; a name that is empty or over 100 bytes is refused |
| Ustar.HeaderRoundTrip | crates/cove-ai-adapters/src/lib.rs:3322-3359 | a written header reads back its size and its name up to any NUL, and never looks like the trailer |
| Ustar.ArchiveRoundTrip | crates/cove-ai-adapters/src/lib.rs:2732-2759 | reading a written archive of members below 8^12 bytes recovers exactly its entries if and only if no name holds a NUL |
| Ustar.NulCutsName | crates/cove-ai-adapters/src/lib.rs:3322-3359 | a member written under the name a NUL b reads back under the name a |
| Ustar.WriteWebdataset | crates/cove-ai-adapters/src/lib.rs:2732-2759 | the archive the export writes reads back as the metadata and the samples, in order |
| RangeCoalescing.CoalesceObjectRanges | crates/cove-bench/src/object_store.rs:254-276 | the loop over the sorted ranges computes the greedy merge |
| RangeCoalescing.CoalescingCovers | crates/cove-bench/src/object_store.rs:254-276 | the result is sorted and strictly separated, no two neighbours could still merge, every range lies inside one, and every extra byte lies in a bridged gap of at most max_gap |
| RangeCoalescing.OrderDoesNotMatter | crates/cove-bench/src/object_store.rs:254-276 | the order of the inputs does not matter |
| RangeCoalescing.CoalescingIdempotent | crates/cove-bench/src/object_store.rs:254-276 | coalescing twice is coalescing once |
| ObjectStore.OfflineObjectStoreHarness.RangeGet | crates/cove-bench/src/object_store.rs:203-227 | the bytes of the range, hit or miss; exact error condition; exact new counters and cache |
| ObjectStore.ReadHarnessRanges | crates/cove-bench/src/object_store.rs:278-287 | reads stop at the first range that cannot be served, and the ones before it have been served |
| ObjectStore.ColdPass | crates/cove-bench/src/object_store.rs:203-227 | a pass over uncached distinct ranges misses once per range and returns every byte |
| ObjectStore.WarmPass | crates/cove-bench/src/object_store.rs:203-227 | a pass over cached ranges hits every time and returns no new byte |
| ObjectStore.ColdThenWarm | crates/cove-bench/src/object_store.rs:326-340 | for in-bounds ranges the cold pass over the coalesced ranges misses once per range, the warm pass hits every time and returns nothing new, and neither fails |
| ObjectStore.SimulateObjectStoreColdWarm | crates/cove-bench/src/object_store.rs:826-843 | the standard simulation never fails, asks for no more ranges than it was given and no more bytes than the object has, and no counter saturates |

## Left out

- TrainingSidecar.BuildTables: failure for want of references is excluded while 40 + 35 references per sample + 2 per label fit u32, not characterised beyond that.
- SidecarValidation.Validate: the byte layout of the descriptor bundle, its checksums, the privacy summary, reserved fields and shares the import has already bounded (sample weight and quality) are not modelled; which failed check is reported is not either.
- TrainingImport.ImportValues: reading files and writing the output are I/O; the fields of a sample come from its row by a mapping that is not modelled beyond the ids.
- SidecarBuilder.Builder.PushDecodingProfile: a profile entry keeps the whole settings value, from which the numeric fields of the stored entry (temperature, top-p, top-k, seed, limits) are derived by rounding that is not modelled; the stored top-p is an arbitrary function of the value.
- SidecarBuilder.Builder.PushModelActor: the family and policy of a later caller with the same key are dropped, as in the code; the entry keeps the first caller's.
- Synopsis.BuildSynopsis: distinct and quantile sketches are not modelled; min and max are given by row, not as tagged values, so errors in tagging a value are absent.
- Zones.BuildCompositeZones: the column count in the header is not modelled, nor are the header's offsets and checksum.
- CanonicalJson.CanonicalRoundTrip: numbers are their printed text; the reader takes compact text only and of `\u` escapes only those the printer emits.
- SampleIdentity.NumberedRowsPass: SHA-256 is an uninterpreted function, so nothing is claimed of ids taken from a digest.
- Ustar.WriteTarEntry: data of 8^12 bytes or more is outside the model; the size field cannot hold it.
- ByteViews.MaterializeView: which of several simultaneous errors is reported is not modelled; only success and failure are.
- PageRoundTrip.PageReadsBack: assumes fixed-size lists of their declared width, which appending and reordering keep, and canonical keys shorter than 4 GiB.
- NumCodes.RetainCodes: the page is taken to be owned, aligned and read on a little-endian machine; otherwise the copying route runs.
- LeafExport.ExportLeaf: file codes stay codes, since resolving them needs a dictionary; views in nested leaves, the precision check of decimals and the null flag checks of Arrow's constructors are not modelled, nor is which error a leaf reports.
- NestedAppend.AppendArray: Arrow arrays are values with one scalar per row; a column half-updated by a failed append is not modelled, since the converter stops there.
- Segments.SegmentTotals: measures are unbounded integers; the bounds are in `Aggregates.CheckedSum`.
- RowSelection.ForEachRow: the closure is a returned list of rows, so its own early errors are modelled by the loops that use the list.
- Byte copies take the row as a value; pointers, alignment and uninitialised memory are not modelled.
- Library contracts are taken as given: the sort used for clustering, ordered maps and sets, the whole-buffer UTF-8 check, Arrow slicing, CRC and SHA-256.
- The container of a page payload (header, offsets, checksums) and the file, manifest and command-line layers are I/O.
- Field extraction from JSON rows (preference pairs, micros and ppm rounding, mapping options) is not modelled beyond ids and splits.
- Encodings decoded elsewhere (RLE, RunEnd, Delta, FrameOfReference, BitPacked, PatchedBase, Sparse, LocalCodebook), type mapping tables, Bloom bits, top-n summaries and vector search would only add easy or approximate members.
