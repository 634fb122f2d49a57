# reversegeocode: a Dafny model of the index builders, the reader and the OSM converter

The reverse geocoder answers "which administrative regions contain this
point?" from a precomputed raster index. Three builders render
administrative boundary polygons onto a pixel grid, decide for every pixel
which region owns it, chain each region's metadata record with its parent's,
and write the grid as run-length encoded rows together with the records into
one binary file. `ReverseGeocoder` maps that file, finds the run that covers
a pixel and returns the NUL-separated record of the run's region. The OSM
converter (`ParseOSM`, two versions) produces the polygon input in three
passes over an OpenStreetMap extract.

This project models that pipeline in Dafny:

- `Binary`: Java's 32-bit ints and bytes, big-endian `writeInt`/`getInt`, bitwise OR.
- `Varint`: the unsigned varint writer and reader.
- `RunLength`: maximal runs of a pixel row and their renumbering.
- `RowCodec`: `compress`, `encodeLine16`, `recodeLine16` and the reader's run scan.
- `RowCodecV0`: the older builder's fixed 3-byte runs.
- `Raster`: the per-pixel coverage rule of the three `transferPixels` variants, and the vote counting and overwrite of `flatten`.
- `Hierarchy`: the parent choice and metadata chaining of the layered and the sliced builders.
- `Codes`: the compaction of entity numbers into the dense codes stored in the file.
- `Container`: the version-1 file layout with its offset table, and the version-0 layout with its length tables.
- `Entities`: reading polygon lines into per-level entity sets, and numbering the entities.
- `Geocoder`: the `ReverseGeocoder` class, i.e. header check, pixel lookup, record lookup with cache, and NUL split.
- `BBox`: the `BoundingBox` class, whose fields are exact integers extended by the two infinities and not-a-number.
- `HierarchicalMap`: the two-level node map and its value iterator.
- `OsmMeta`: the two `Metadata` tag state machines and their tab-separated records.
- `OsmPass`: the first pass (way flags, relation marking, pruning), the second pass (node coordinates) and the coordinate packing.
- `OsmRing`: the third pass, which covers closed ways, relation members and the backtracking ring assembly of open fragments.

The layered builder (`BuildLayeredIndex`) writes the same version-1 layout as
the sliced one, so `Container` serves both. Its compaction and metadata loop are in
`Codes` and its row encoder in `RowCodec`.

The central results are `RowCodec.ScanEncodedRow` and
`Geocoder.PixelOfIndex`: a pixel query on a file written by the builders
returns the code of the region that owns the pixel. `Geocoder.EntryOfIndex`
and `Geocoder.KeysOfIndex` state the same for record lookups.
`Hierarchy.ReducedMetaChains` and `Codes.MetaOfCode` connect a pixel's code to its
region's chained record.

## Model

| member | source | states |
|---|---|---|
| Binary.GetIntBytes | src/main/java/com/kno10/reversegeocode/query/ReverseGeocoder.java:102-112 | an int written big-endian with `writeInt` reads back with `getInt` as the same value taken modulo 2^32 as a signed int, wherever it sits in the buffer |
| BBox.EmptySpec | src/indexer/java/com/kno10/reversegeocode/indexer/BoundingBox.java:96-101 | after `reset` no point is inside, width and height are -infinity and the size is +infinity |
| BBox.AddPointSpec | src/indexer/java/com/kno10/reversegeocode/indexer/BoundingBox.java:111-116 | `update(lon, lat)` puts the point inside, keeps every point that was inside, and never stores not-a-number |
| BBox.AddInsidePoint | src/indexer/java/com/kno10/reversegeocode/indexer/BoundingBox.java:111-116 | updating with a point already inside changes no field |
| BBox.UnionSpec | src/indexer/java/com/kno10/reversegeocode/indexer/BoundingBox.java:124-129 | `update(other)` keeps every point of either box inside and never stores not-a-number |
| BBox.AddPointIsUnion | src/indexer/java/com/kno10/reversegeocode/indexer/BoundingBox.java:111-129 | updating with a point equals merging with the box of that single point |
| BBox.BoxOfInside | src/indexer/java/com/kno10/reversegeocode/indexer/BoundingBox.java:111-116 | after any sequence of updates from a reset box, every added point is inside |
| BBox.BoxOfSpec | src/indexer/java/com/kno10/reversegeocode/indexer/BoundingBox.java:71-91 | once a point was added all four fields are finite, width and height are non-negative and the size is their product |
| BBox.BoundingBox.constructor | src/indexer/java/com/kno10/reversegeocode/indexer/BoundingBox.java:36-39 | the default constructor leaves the reset box |
| BBox.BoundingBox.Clone | src/indexer/java/com/kno10/reversegeocode/indexer/BoundingBox.java:44-50 | the clone constructor copies all four fields |
| BBox.BoundingBox.Reset | src/indexer/java/com/kno10/reversegeocode/indexer/BoundingBox.java:96-101 | minima become +infinity and maxima -infinity |
| BBox.BoundingBox.BoxWidth | src/indexer/java/com/kno10/reversegeocode/indexer/BoundingBox.java:71-73 | the longitude extent: -infinity for a reset box, non-negative once the box holds a point |
| BBox.BoundingBox.BoxHeight | src/indexer/java/com/kno10/reversegeocode/indexer/BoundingBox.java:80-82 | the latitude extent: -infinity for a reset box, non-negative once the box holds a point |
| BBox.BoundingBox.BoxSize | src/indexer/java/com/kno10/reversegeocode/indexer/BoundingBox.java:89-91 | +infinity for a reset box, the product of width and height once both are finite |
| BBox.BoundingBox.Update | src/indexer/java/com/kno10/reversegeocode/indexer/BoundingBox.java:111-116 | the new fields are the old box with the point added (a field moves only when the point lies further out) |
| BBox.BoundingBox.UpdateBox | src/indexer/java/com/kno10/reversegeocode/indexer/BoundingBox.java:124-129 | the new fields are the union with the other box, also when the other box is this one |
| Varint.EncodeShape | src/indexer/java/com/kno10/reversegeocode/indexer/BuildLayeredIndexSliced.java:676-686 | every byte but the last has the continuation bit, the last has not; one byte below 2^7, at most 2, 3, 4 bytes below 2^14, 2^21, 2^28, never more than 5 |
| Varint.Decode | src/main/java/com/kno10/reversegeocode/query/ReverseGeocoder.java:164-178 | a successful read consumes at least one byte and stops inside the buffer |
| Varint.DecodeEncode | src/indexer/java/com/kno10/reversegeocode/indexer/BuildLayeredIndexSliced.java:650-686 | reading at the start of what the writer stored gives back the same 32-bit value and the position just after it, whatever precedes or follows |
| Varint.SixContinuationBytes | src/indexer/java/com/kno10/reversegeocode/indexer/BuildLayeredIndexSliced.java:660-667 | six bytes with the continuation bit in a row make the reader fail (`bits > 35`) instead of reading a seventh |
| Varint.ReadUnsignedVarint | src/indexer/java/com/kno10/reversegeocode/indexer/BuildLayeredIndexSliced.java:650-670 | the loop computes `Decode`: an error at the end of the buffer (Java's index exception) or after too many groups, else the value and the next position |
| Varint.WriteUnsignedVarint | src/indexer/java/com/kno10/reversegeocode/indexer/BuildLayeredIndexSliced.java:676-686 | stores exactly the encoding of the value at `pos`, leaves every other byte alone and returns the position after it |
| RunLength.RunEnd | src/indexer/java/com/kno10/reversegeocode/indexer/BuildLayeredIndexSliced.java:452-457 | the run starting at `x` ends after at least one pixel, all its pixels equal the first, and the pixel after it differs |
| RunLength.RunEndUnique | src/indexer/java/com/kno10/reversegeocode/indexer/BuildLayeredIndexSliced.java:452-457 | the run end is the only position with that property |
| RunLength.RunsFromSpec | src/indexer/java/com/kno10/reversegeocode/indexer/BuildLayeredIndexSliced.java:452-462 | the runs cut from `x` expand back to `row[x..]`, have positive counts and no two neighbours with the same value |
| RunLength.ExpandRuns | src/indexer/java/com/kno10/reversegeocode/indexer/BuildLayeredIndexSliced.java:452-462 | the runs of a row expand back to the row and are canonical |
| RunLength.RunsOfExpand | src/main/java/com/kno10/reversegeocode/query/ReverseGeocoder.java:148-154 | a canonical run list is exactly the run list of its pixels: the split into runs is unique |
| RunLength.MapRunsShape | src/indexer/java/com/kno10/reversegeocode/indexer/BuildLayeredIndexSliced.java:629-641 | renumbering runs keeps their number, counts and total, and replaces each code by its table entry |
| RunLength.ExpandMapRuns | src/indexer/java/com/kno10/reversegeocode/indexer/BuildLayeredIndex.java:538-553 | renumbering the runs renumbers every pixel they stand for |
| RowCodec.EncodeRunsSize | src/indexer/java/com/kno10/reversegeocode/indexer/BuildLayeredIndexSliced.java:446-462 | a run list needs at most 8 bytes per pixel (the size of the compression buffer) |
| RowCodec.CompressedRowSize | src/indexer/java/com/kno10/reversegeocode/indexer/BuildLayeredIndexSliced.java:446-462 | a stored row never overruns the buffer of 8 bytes per pixel |
| RowCodec.MappedRowSize | src/indexer/java/com/kno10/reversegeocode/indexer/BuildLayeredIndex.java:538-553 | the same bound after renumbering the codes |
| RowCodec.AtStored | src/indexer/java/com/kno10/reversegeocode/indexer/BuildLayeredIndexSliced.java:629-641 | the stored bytes of a run list read back, varint by varint, as that run list's codes and counts minus one |
| RowCodec.ScanRuns | src/main/java/com/kno10/reversegeocode/query/ReverseGeocoder.java:148-154 | the scan over stored runs answers the code of the run that covers column `x` |
| RowCodec.ScanEncoded | src/main/java/com/kno10/reversegeocode/query/ReverseGeocoder.java:143-155 | scanning a stored run list for a covered column yields the pixel at that column |
| RowCodec.ScanEncodedRow | src/main/java/com/kno10/reversegeocode/query/ReverseGeocoder.java:136-156 | looking up column `x` in a row stored by `encodeLine16` yields the new code of the pixel at `x` |
| RowCodec.ScanCompressedRow | src/main/java/com/kno10/reversegeocode/query/ReverseGeocoder.java:136-156 | looking up column `x` in a row stored by `compress` yields the pixel at `x` |
| RowCodec.RecodeRuns | src/indexer/java/com/kno10/reversegeocode/indexer/BuildLayeredIndexSliced.java:629-641 | recoding stored runs renumbers their codes and copies their counts |
| RowCodec.RecodeEncoded | src/indexer/java/com/kno10/reversegeocode/indexer/BuildLayeredIndexSliced.java:629-641 | recoding the stored form of a run list gives the stored form of the renumbered run list |
| RowCodec.RecodeCompressedRow | src/indexer/java/com/kno10/reversegeocode/indexer/BuildLayeredIndexSliced.java:629-641 | `compress` followed by `recodeLine16` stores the same bytes as the layered builder's single `encodeLine16` |
| RowCodec.CompressRow | src/indexer/java/com/kno10/reversegeocode/indexer/BuildLayeredIndexSliced.java:446-464 | the loop leaves the stored form of the row's maximal runs at the start of the buffer |
| RowCodec.EncodeLine16 | src/indexer/java/com/kno10/reversegeocode/indexer/BuildLayeredIndex.java:538-553 | the loop leaves the stored form of the row's maximal runs, codes renumbered, at the start of the buffer |
| RowCodec.PutRun | src/indexer/java/com/kno10/reversegeocode/indexer/BuildLayeredIndex.java:548-550 | the two varint stores of one run extend the written prefix by the run's code and count |
| RowCodec.RecodeLine16 | src/indexer/java/com/kno10/reversegeocode/indexer/BuildLayeredIndexSliced.java:629-641 | succeeds exactly when the stored row is well formed and its recoding fits the buffer; then the buffer starts with the recoded row |
| RowCodecV0.ChunkEnd | src/main/java/com/kno10/reversegeocode/builder/BuildIndex.java:411-416 | a chunk starting at `x` is non-empty, stays inside the row and holds at most 256 pixels |
| RowCodecV0.ExpandChunks | src/main/java/com/kno10/reversegeocode/builder/BuildIndex.java:411-416 | the chunks cut from a row expand back to exactly that row, each chunk holds 1 to 256 pixels, and their counts add up to the row width |
| RowCodecV0.ChunksFromSpec | src/main/java/com/kno10/reversegeocode/builder/BuildIndex.java:411-416 | the same for the chunks cut from any column `x` on: they expand to the rest of the row |
| RowCodecV0.ChunkStep | src/main/java/com/kno10/reversegeocode/builder/BuildIndex.java:414-416 | a maximal block of equal pixels, cut at 256, is the first chunk and the chunking resumes right after it |
| RowCodecV0.MarkHighIsOr | src/main/java/com/kno10/reversegeocode/builder/BuildIndex.java:419 | setting the marker on the high byte is a bitwise OR with 0x80 |
| RowCodecV0.DecodeEncodeTriples | src/main/java/com/kno10/reversegeocode/builder/BuildIndex.java:419-421 | for codes below 0x8000 and chunks of 1 to 256 pixels, the 3-byte triples decode back to the same chunk list |
| RowCodecV0.MarkerCollision | src/main/java/com/kno10/reversegeocode/builder/BuildIndex.java:418-419 | code 0x8000 and code 0 are written as the same triple, so the marker bit loses information |
| RowCodecV0.PutTriple | src/main/java/com/kno10/reversegeocode/builder/BuildIndex.java:419-421 | writing one triple advances the buffer length by 3 and appends exactly that triple's bytes |
| RowCodecV0.PutChunk | src/main/java/com/kno10/reversegeocode/builder/BuildIndex.java:412-421 | one outer iteration consumes one chunk of the row and appends its triple, keeping what remains to write equal to the rest of the row's triples |
| RowCodecV0.EncodeLine16V0 | src/main/java/com/kno10/reversegeocode/builder/BuildIndex.java:408-424 | the buffer holds the triples of the row's chunks, with each code replaced by its renumbered code, and the length is three bytes per chunk and within the buffer |
| RowCodecV0.ChunkCountBound | src/main/java/com/kno10/reversegeocode/builder/BuildIndex.java:327 | a row never has more chunks than pixels, so three bytes per pixel bound the output |
| RowCodecV0.DecodeEncodedRowV0 | src/main/java/com/kno10/reversegeocode/builder/BuildIndex.java:408-424 | when every renumbered code is below 0x8000, decoding the stored triples and expanding them yields the renumbered code of every pixel of the row |
| Codes.CodesSpec | src/indexer/java/com/kno10/reversegeocode/indexer/BuildLayeredIndex.java:438-441 | unused entities get -1 and used ones get codes below the count; codes grow strictly with the entity number and every code below the count is taken |
| Codes.MarkUsed | src/indexer/java/com/kno10/reversegeocode/indexer/BuildLayeredIndex.java:431-436 | after the scan an entity's mark is 1 exactly when some pixel of the grid holds it, and otherwise is unchanged |
| Codes.Compact | src/indexer/java/com/kno10/reversegeocode/indexer/BuildLayeredIndex.java:438-441 | the mark array is replaced by the dense codes of the marks, and the returned count is the number of marked entities |
| Codes.CodesUsed | src/indexer/java/com/kno10/reversegeocode/indexer/BuildLayeredIndex.java:438-441 | the number of entities with a code equals the returned count |
| Codes.CollectMeta | src/indexer/java/com/kno10/reversegeocode/indexer/BuildLayeredIndex.java:456-465 | the metadata list holds the record of every entity with a code, in entity order |
| Codes.CodedSize | src/indexer/java/com/kno10/reversegeocode/indexer/BuildLayeredIndex.java:456-465 | the metadata list has one entry per coded entity |
| Codes.CodedAt | src/indexer/java/com/kno10/reversegeocode/indexer/BuildLayeredIndex.java:456-465 | the record of a coded entity sits at that entity's rank among the coded entities |
| Codes.MetaOfCode | src/indexer/java/com/kno10/reversegeocode/indexer/BuildLayeredIndex.java:438-465 | composing both steps: the metadata list has exactly the count of entries, and the entry at an entity's code is that entity's record |
| Codes.GuardV0 | src/main/java/com/kno10/reversegeocode/builder/BuildIndex.java:329-333 | the version-0 count check passes the count through unchanged whenever it accepts it |
| Codes.GuardV0AdmitsCollision | src/main/java/com/kno10/reversegeocode/builder/BuildIndex.java:329-333 | with 0x8001 used entities the check still accepts, yet two different entities are then written as the same triple |
| Codes.GuardV0Fixed | src/main/java/com/kno10/reversegeocode/builder/BuildIndex.java:329-333 | the corrected check accepts exactly the counts of at most 0x8000, which the 15-bit code field can hold |
| Codes.V0RowRoundTrip | src/main/java/com/kno10/reversegeocode/builder/BuildIndex.java:322-358 | under the corrected check, every row's triples decode and expand to the codes of its pixels, and two pixels share a code only when they share an entity |
| Codes.CollectMetaV0 | src/main/java/com/kno10/reversegeocode/builder/BuildIndex.java:371-380 | the version-0 metadata loop yields exactly the outcome described by the metadata specification, including its failures |
| Codes.StoreMetaV0 | src/main/java/com/kno10/reversegeocode/builder/BuildIndex.java:374-379 | one iteration either fails with a store past the end of the array or keeps the array prefix equal to "Earth" followed by the records of the coded entities seen so far |
| Codes.MetaV0NeedsEarth | src/main/java/com/kno10/reversegeocode/builder/BuildIndex.java:371-380 | the version-0 metadata array is filled exactly when entity 0 (the unclaimed area) is used, and then holds "Earth" followed by the records in code order |
| Codes.MetaV0OutOfBounds | src/main/java/com/kno10/reversegeocode/builder/BuildIndex.java:371-380 | a grid where every pixel has an entity (no 0) makes the writer store past the end of its metadata array |
| Codes.RenumberSliced | src/indexer/java/com/kno10/reversegeocode/indexer/BuildLayeredIndexSliced.java:509-539 | entity 0 gets code 0; an entity gets -1 exactly when its pixel total is not positive; the others get dense codes in descending order of pixel totals, with each record moved to the slot of its code |
| Codes.RenumberStep | src/indexer/java/com/kno10/reversegeocode/indexer/BuildLayeredIndexSliced.java:531-536 | one step of the renumbering gives the next entity in sorted order the next code and the next record slot |
| Codes.RenumberDone | src/indexer/java/com/kno10/reversegeocode/indexer/BuildLayeredIndexSliced.java:527-530 | when the walk reaches the end or the first entity with no pixels, the codes are complete |
| Container.HeaderBytes | src/indexer/java/com/kno10/reversegeocode/indexer/BuildLayeredIndexSliced.java:561-573 | the header is exactly 32 bytes, the size the reader skips before the offset table |
| Container.OffsetsStep | src/indexer/java/com/kno10/reversegeocode/indexer/BuildLayeredIndexSliced.java:583-594 | each table slot is the previous one plus the length of the previous chunk, so consecutive slots bracket one row or record |
| Container.OffsetsEnd | src/indexer/java/com/kno10/reversegeocode/indexer/BuildLayeredIndexSliced.java:595 | the final slot is the first row's position plus the total size of all rows and records: the end of the file |
| Container.FileSize | src/indexer/java/com/kno10/reversegeocode/indexer/BuildLayeredIndexSliced.java:578-610 | the file is the header and table (whose size is the first row's position) followed by all rows and records |
| Container.WriteOffsets | src/indexer/java/com/kno10/reversegeocode/indexer/BuildLayeredIndexSliced.java:583-595 | the table loop appends one offset per chunk and the end offset, and returns that end position |
| Container.WriteChunks | src/indexer/java/com/kno10/reversegeocode/indexer/BuildLayeredIndexSliced.java:599-606 | the row and record loops append exactly the chunks' bytes, in order |
| Container.WriteIndex | src/indexer/java/com/kno10/reversegeocode/indexer/BuildLayeredIndexSliced.java:561-610 | the two consistency checks never fire: the writer always produces the laid-out file |
| Container.HeaderFields | src/main/java/com/kno10/reversegeocode/query/ReverseGeocoder.java:102-112 | reading the header back gives the magic, the width, the height and the record count that were written |
| Container.ReadHeader | src/main/java/com/kno10/reversegeocode/query/ReverseGeocoder.java:99-116 | the same for a whole written file: the reader's magic check passes and its dimensions and count are the writer's |
| Container.ReadSlot | src/main/java/com/kno10/reversegeocode/query/ReverseGeocoder.java:204-207 | the int the reader finds in table slot `k` is the offset the writer recorded for chunk `k` |
| Container.ReadChunk | src/main/java/com/kno10/reversegeocode/query/ReverseGeocoder.java:204-213 | the bytes between two consecutive slots are exactly the row or record the writer stored there |
| Container.TableAt | src/main/java/com/kno10/reversegeocode/query/ReverseGeocoder.java:143-145 | any int of the table reads back as the value written, taken modulo 2^32 as a signed int |
| Container.HeaderBytesV0 | src/main/java/com/kno10/reversegeocode/builder/BuildIndex.java:337-349 | the version-0 header is exactly 26 bytes |
| Container.LengthAt | src/main/java/com/kno10/reversegeocode/builder/BuildIndex.java:360-362 | a length written with `writeShort` reads back modulo 2^16 |
| Container.WriteLengths | src/main/java/com/kno10/reversegeocode/builder/BuildIndex.java:360-362 | the length loops append one 16-bit length per chunk |
| Container.WriteIndexV0 | src/main/java/com/kno10/reversegeocode/builder/BuildIndex.java:337-389 | the version-0 writer produces header, row lengths, rows, record lengths and records in that order |
| Container.ReadLengthsV0 | src/main/java/com/kno10/reversegeocode/builder/BuildIndex.java:354-385 | each row and record length in the version-0 file reads back modulo 2^16 at its fixed table position |
| Container.ReadChunksV0 | src/main/java/com/kno10/reversegeocode/builder/BuildIndex.java:354-389 | the rows and records in the version-0 file sit exactly where the lengths place them |
| Entities.CoversMerge | src/indexer/java/com/kno10/reversegeocode/indexer/BuildLayeredIndexSliced.java:216-220 | widening an entity's box by a new ring keeps every ring of the entity inside its box |
| Entities.CoversNew | src/indexer/java/com/kno10/reversegeocode/indexer/BuildLayeredIndexSliced.java:222-228 | a new entity's box covers its first ring |
| Entities.MergeLinePreserves | src/indexer/java/com/kno10/reversegeocode/indexer/BuildLayeredIndexSliced.java:176-230 | one input line keeps the entities well numbered (numbers exactly 1 .. counter, each used once) and raises the counter by at most one |
| Entities.MergeAllPreserves | src/indexer/java/com/kno10/reversegeocode/indexer/BuildLayeredIndexSliced.java:176-230 | the whole reading loop keeps the entities well numbered and adds at most one number per line |
| Entities.EmptyWellNumbered | src/indexer/java/com/kno10/reversegeocode/indexer/BuildLayeredIndexSliced.java:142-148 | the empty per-level entity sets, with the counter at 0, are well numbered |
| Entities.MergeLineSpec | src/indexer/java/com/kno10/reversegeocode/indexer/BuildLayeredIndexSliced.java:200-229 | a kept line ends up in the entity with its key at its level, as the last ring and inside the box; an existing entity keeps its number and the counter, a new one gets the next number; every other entity is untouched |
| Entities.NumsBelowSpec | src/indexer/java/com/kno10/reversegeocode/indexer/BuildLayeredIndexSliced.java:477-486 | a number is among those collected from the lower levels exactly when some entity there carries it |
| Entities.CollectKeys | src/indexer/java/com/kno10/reversegeocode/indexer/BuildLayeredIndexSliced.java:477-486 | the number-to-key map has exactly the numbers 0 .. counter, maps 0 to the empty key and maps every entity's number to its key |
| Entities.CollectLevel | src/indexer/java/com/kno10/reversegeocode/indexer/BuildLayeredIndexSliced.java:483-485 | one level adds exactly its entities' numbers, each mapped to its key, and leaves the other numbers alone |
| Entities.NumberLayered | src/indexer/java/com/kno10/reversegeocode/indexer/BuildLayeredIndex.java:253-319 | with each level's entities listed once and sorted by `compareTo`, the drawn entities get the numbers 1, 2, ... across all levels in drawing order, and the key list holds the empty key followed by their keys; the numbered entities are exactly the levels' entities with a ring, and within a level a larger box gets a smaller number |
| Entities.NumberLevel | src/indexer/java/com/kno10/reversegeocode/indexer/BuildLayeredIndex.java:269-320 | one sorted level appends its drawable entities, numbered on from the previous levels, from the largest box to the smallest, and keeps what earlier levels recorded |
| Entities.NumberLevels | src/indexer/java/com/kno10/reversegeocode/indexer/BuildLayeredIndex.java:258-320 | with every level sorted, the levels in turn number their drawn entities 1, 2, ... in drawing order, and the key list holds the empty key followed by their keys |
| Entities.DrawableSpec | src/indexer/java/com/kno10/reversegeocode/indexer/BuildLayeredIndex.java:275 | an entity is drawn exactly when it is in the level and has at least one ring |
| Entities.NumberV0 | src/main/java/com/kno10/reversegeocode/builder/BuildIndex.java:199-214 | with the entity set listed once and sorted by `compareTo`, the version-0 renderer numbers the entities by their position in that order, counting skipped ones too; exactly the entities with a ring are drawn, and a larger box gets a smaller number |
| Entities.DrawnV0Positions | src/main/java/com/kno10/reversegeocode/builder/BuildIndex.java:206-214 | every drawn entity carries its 1-based position in the sorted order and has a ring |
| Entities.DrawnV0Increasing | src/main/java/com/kno10/reversegeocode/builder/BuildIndex.java:206-214 | numbers of drawn entities are strictly increasing and at most the number of entities |
| Entities.DrawnV0Dense | src/main/java/com/kno10/reversegeocode/builder/BuildIndex.java:206-214 | when every entity has a ring, the numbers are exactly 1 .. n |
| Entities.DrawnV0Covers | src/main/java/com/kno10/reversegeocode/builder/BuildIndex.java:206-214 | every entity with a ring is drawn, under its 1-based position |
| Entities.DrawnV0Set | src/main/java/com/kno10/reversegeocode/builder/BuildIndex.java:199-214 | for a listing of the entity set, every drawn entity is one of the set with a ring, and every such entity is drawn |
| Entities.DrawnV0Sorted | src/main/java/com/kno10/reversegeocode/builder/BuildIndex.java:199-214 | for a sorted order, a smaller version-0 number goes to a box at least as large |
| Entities.SortedPairs | src/indexer/java/com/kno10/reversegeocode/indexer/BuildLayeredIndex.java:647-650 | in an order sorted by `compareTo`, of any two positions the earlier box is at least as large under `Double.compare` |
| Entities.DrawableSorted | src/indexer/java/com/kno10/reversegeocode/indexer/BuildLayeredIndex.java:269-276 | skipping the entities without rings keeps a sorted level sorted |
| Entities.DrawnSpec | src/indexer/java/com/kno10/reversegeocode/indexer/BuildLayeredIndex.java:258-276 | the layered renderer draws exactly the entities with a ring, of every level |
| Entities.DrawnLevels | src/indexer/java/com/kno10/reversegeocode/indexer/BuildLayeredIndex.java:258-320 | from sorted per-level orders: every drawn entity is a level's entity with a ring, every such entity is drawn, and in each level's block the larger box comes first |
| Entities.EntitySets.constructor | src/indexer/java/com/kno10/reversegeocode/indexer/BuildLayeredIndexSliced.java:142-148 | the builder starts with an empty entity set for each used level and the counter at 0 |
| Entities.EntitySets.AddLine | src/indexer/java/com/kno10/reversegeocode/indexer/BuildLayeredIndexSliced.java:177-229 | the object's state advances by exactly one line's merge |
| Entities.EntitySets.ReadLines | src/indexer/java/com/kno10/reversegeocode/indexer/BuildLayeredIndexSliced.java:176-239 | the state after reading is the merge of all lines; more than 2^24 - 1 entities is an error, otherwise the counter is returned |
| Raster.PackFields | src/indexer/java/com/kno10/reversegeocode/indexer/BuildLayeredIndexSliced.java:392 | packing a coverage byte and a 24-bit entity number into one int keeps both: the low 24 bits read back as the entity and the top byte as the coverage |
| Raster.PackWide | src/indexer/java/com/kno10/reversegeocode/indexer/BuildLayeredIndex.java:365 | packing any entity number keeps only its low 24 bits as the id read back and ORs its higher bits into the coverage byte |
| Raster.LayeredNumberAliases | src/indexer/java/com/kno10/reversegeocode/indexer/BuildLayeredIndex.java:365 | entity number 2^24 + 5 drawn at coverage 0x20 reads back as entity 5 at coverage 0x21 |
| Raster.SlicedCellSpec | src/indexer/java/com/kno10/reversegeocode/indexer/BuildLayeredIndexSliced.java:383-393 | a pixel with coverage below 0x19, or below the current owner's coverage, keeps its owner; otherwise it goes to the entity with the new coverage |
| Raster.LayeredCellSpec | src/indexer/java/com/kno10/reversegeocode/indexer/BuildLayeredIndex.java:355-366 | the same rule with the coverage clamped to 0x7F, which keeps every stored coverage at most 0x7F |
| Raster.V0CellSpec | src/main/java/com/kno10/reversegeocode/builder/BuildIndex.java:288-299 | the version-0 rule on separate owner and coverage grids: below the threshold or a weaker coverage keeps both; otherwise the entity takes the pixel and the coverage never drops |
| Raster.LayeredMatchesV0 | src/indexer/java/com/kno10/reversegeocode/indexer/BuildLayeredIndex.java:355-366 | packing owner and coverage into one int (layered builder) decides every pixel exactly as the separate grids of the version-0 builder |
| Raster.TransferPixelsSliced | src/indexer/java/com/kno10/reversegeocode/indexer/BuildLayeredIndexSliced.java:376-396 | every pixel of the tile is updated by the sliced rule from the rendered coverage; every pixel outside the tile is unchanged |
| Raster.TransferPixelsLayered | src/indexer/java/com/kno10/reversegeocode/indexer/BuildLayeredIndex.java:350-369 | the same for the layered rule, for any entity number |
| Raster.TransferPixelsV0 | src/main/java/com/kno10/reversegeocode/builder/BuildIndex.java:283-302 | the same for the version-0 rule, updating owner and coverage grids together |
| Raster.RowVotesCells | src/indexer/java/com/kno10/reversegeocode/indexer/BuildLayeredIndexSliced.java:411-421 | a (entity, parent) vote is cast in a row prefix exactly when some pixel there has that entity in the new layer above that parent in the old one |
| Raster.GridVotesCells | src/indexer/java/com/kno10/reversegeocode/indexer/BuildLayeredIndexSliced.java:409-422 | the same for the rows scanned so far |
| Raster.CountRow | src/indexer/java/com/kno10/reversegeocode/indexer/BuildLayeredIndexSliced.java:410-421 | scanning one row adds exactly that row's votes to the tally |
| Raster.CountVotes | src/indexer/java/com/kno10/reversegeocode/indexer/BuildLayeredIndexSliced.java:409-422 | the tally grows by exactly one vote per pixel owned in the new layer, naming that pixel's previous owner |
| Raster.Overwrite | src/indexer/java/com/kno10/reversegeocode/indexer/BuildLayeredIndexSliced.java:424-432 | a pixel owned in the new layer takes that entity; every other pixel keeps its previous owner |
| Raster.FlattenSliced | src/indexer/java/com/kno10/reversegeocode/indexer/BuildLayeredIndexSliced.java:407-433 | both halves together: the votes are counted on the grid as it was before the overwrite |
| Hierarchy.BestParentUnique | src/indexer/java/com/kno10/reversegeocode/indexer/BuildLayeredIndex.java:397-404 | the parent choice is determined by the votes alone: most votes, smallest entity among ties |
| Hierarchy.PickParent | src/indexer/java/com/kno10/reversegeocode/indexer/BuildLayeredIndex.java:397-404 | the loop over an entity's votes returns the best parent by that rule, or -1 when there are no votes |
| Hierarchy.PickSlicedMax | src/indexer/java/com/kno10/reversegeocode/indexer/BuildLayeredIndexSliced.java:491-499 | the sliced builder's choice is a candidate with the maximal vote count, or -1 without candidates |
| Hierarchy.PickSlicedOrderDependent | src/indexer/java/com/kno10/reversegeocode/indexer/BuildLayeredIndexSliced.java:495 | with two candidates tied at 3 votes, the sliced choice depends on the hash order in which they come, while the intended rule picks the smaller entity |
| Hierarchy.TotalPositive | src/indexer/java/com/kno10/reversegeocode/indexer/BuildLayeredIndexSliced.java:491-501 | an entity's pixel total is positive exactly when it has a vote |
| Hierarchy.SlicedMeta | src/indexer/java/com/kno10/reversegeocode/indexer/BuildLayeredIndexSliced.java:490-507 | processing the voters in hash order leaves one record per entity number |
| Hierarchy.BestCandidateSliced | src/indexer/java/com/kno10/reversegeocode/indexer/BuildLayeredIndexSliced.java:491-499 | the inner loop computes the sliced choice and the pixel total |
| Hierarchy.ChooseParentsSliced | src/indexer/java/com/kno10/reversegeocode/indexer/BuildLayeredIndexSliced.java:488-507 | each voter's pixel total is stored in its count slot, other slots are unchanged, and the records are those of processing the voters in hash order |
| Hierarchy.SlicedMetaOrderDependent | src/indexer/java/com/kno10/reversegeocode/indexer/BuildLayeredIndexSliced.java:505-506 | a voter that reads its parent's record before that parent has been extended gets a shorter chain: the result depends on hash order |
| Hierarchy.ReduceMeta | src/indexer/java/com/kno10/reversegeocode/indexer/BuildLayeredIndex.java:396-409 | each voter's record becomes its own record followed by its best parent's record when that parent is an entity; other records are unchanged |
| Hierarchy.ReducedMetaChains | src/indexer/java/com/kno10/reversegeocode/indexer/BuildLayeredIndex.java:405-407 | a voter's new record is its own followed by the parent's new record, which equals the parent's old one because parents of a level are not voters of it |
| Hierarchy.NoCandidates | src/indexer/java/com/kno10/reversegeocode/indexer/BuildLayeredIndex.java:396-404 | an entity voted for is not a voter itself, so its record stays as it was |
| Hierarchy.GridLevelVotes | src/indexer/java/com/kno10/reversegeocode/indexer/BuildLayeredIndex.java:386-394 | when new-layer entities never appear in the old layer, the votes of a grid meet the precondition of the reduction |
| Hierarchy.FlattenLayered | src/indexer/java/com/kno10/reversegeocode/indexer/BuildLayeredIndex.java:383-418 | the layered flatten extends each voter's record with its best parent's, and overwrites exactly the pixels owned in the new layer |
| Geocoder.SplitFields | src/main/java/com/kno10/reversegeocode/query/ReverseGeocoder.java:215-228 | the decoded record is cut at every NUL into exactly as many fields as it has NULs, with any text after the last NUL dropped |
| Geocoder.FieldsJoin | src/main/java/com/kno10/reversegeocode/query/ReverseGeocoder.java:215-228 | splitting NUL-terminated keys that contain no NUL gives back exactly those keys |
| Geocoder.FieldsDropTail | src/main/java/com/kno10/reversegeocode/query/ReverseGeocoder.java:223-228 | text after the last NUL does not add a field |
| Geocoder.ReverseGeocoder.constructor | src/main/java/com/kno10/reversegeocode/query/ReverseGeocoder.java:80-81 | a geocoder starts with no buffer and no entries |
| Geocoder.ReverseGeocoder.Reopen | src/main/java/com/kno10/reversegeocode/query/ReverseGeocoder.java:99-116 | a file too short for the header, with the wrong magic or with a negative count is refused; otherwise width, height and entry count are taken from the header and the cache starts empty with one slot per entry |
| Geocoder.ReverseGeocoder.LookupUncached | src/main/java/com/kno10/reversegeocode/query/ReverseGeocoder.java:136-156 | a pixel query returns 0 outside the grid and otherwise the code of the run that covers the column in the row the table points at |
| Geocoder.ReverseGeocoder.LookupEntryUncached | src/main/java/com/kno10/reversegeocode/query/ReverseGeocoder.java:200-234 | an index outside the entries, or an empty record, gives no fields; otherwise the record between its two table slots, split at NUL |
| Geocoder.ReverseGeocoder.LookupEntry | src/main/java/com/kno10/reversegeocode/query/ReverseGeocoder.java:186-192 | the cached lookup answers the same as the uncached one, stores a found answer in its slot and leaves all other slots alone |
| Geocoder.ReverseGeocoder.Lookup | src/main/java/com/kno10/reversegeocode/query/ReverseGeocoder.java:125-127 | a coordinate query is the record lookup of the pixel's code |
| Geocoder.PixelOfIndex | src/main/java/com/kno10/reversegeocode/query/ReverseGeocoder.java:136-156 | on a file laid out by the sliced writer, the pixel query returns the renumbered code of the entity that owns that pixel |
| Geocoder.EntryOfIndex | src/main/java/com/kno10/reversegeocode/query/ReverseGeocoder.java:200-234 | on such a file, the record lookup returns the NUL-split fields of the record stored for that code |
| Geocoder.KeysOfIndex | src/main/java/com/kno10/reversegeocode/query/ReverseGeocoder.java:200-234 | when the stored record is a chain of NUL-terminated keys, the lookup returns exactly those keys |
| Geocoder.EntryFromSlots | src/main/java/com/kno10/reversegeocode/query/ReverseGeocoder.java:204-228 | the record lookup reads the bytes between the two slots of the entry |
| HierarchicalMap.KeySplitInjective | src/indexer/java/com/kno10/reversegeocode/converter/LongObjectHierarchicalMap.java:84-89 | two ids below the maximum with the same prefix and the same suffix are the same id |
| HierarchicalMap.PutFindSame | src/indexer/java/com/kno10/reversegeocode/converter/LongObjectHierarchicalMap.java:135-143 | after storing a value under an id, that id finds the value |
| HierarchicalMap.PutFindOther | src/indexer/java/com/kno10/reversegeocode/converter/LongObjectHierarchicalMap.java:135-143 | storing under one id below the maximum leaves every other such id as it was |
| HierarchicalMap.PutSize | src/indexer/java/com/kno10/reversegeocode/converter/LongObjectHierarchicalMap.java:135-160 | storing grows the size by one exactly when the id was absent |
| HierarchicalMap.PutAllFind | src/indexer/java/com/kno10/reversegeocode/converter/LongObjectHierarchicalMap.java:135-143 | after storing a list of ids into an empty map, exactly those ids are found |
| HierarchicalMap.PutAllSize | src/indexer/java/com/kno10/reversegeocode/converter/LongObjectHierarchicalMap.java:154-160 | the size after storing a list of ids is the number of distinct ids |
| HierarchicalMap.PutAliases | src/indexer/java/com/kno10/reversegeocode/converter/LongObjectHierarchicalMap.java:135-143 | `put` has no range check: an id at or above 2^48, or a negative one, lands on the slot of a valid id |
| HierarchicalMap.PutChecked | src/indexer/java/com/kno10/reversegeocode/converter/LongObjectHierarchicalMap.java:135-143 | the corrected store accepts exactly the 48-bit ids 0 .. 2^48 - 1 |
| HierarchicalMap.PutCheckedIsolated | src/indexer/java/com/kno10/reversegeocode/converter/LongObjectHierarchicalMap.java:135-143 | an accepted store finds its value and changes no other id |
| HierarchicalMap.ValuesCount | src/indexer/java/com/kno10/reversegeocode/converter/LongObjectHierarchicalMap.java:154-169 | the value iteration yields as many values as the size counts |
| HierarchicalMap.ValuesMember | src/indexer/java/com/kno10/reversegeocode/converter/LongObjectHierarchicalMap.java:167-169 | a value is yielded exactly when some key of the map holds it |
| HierarchicalMap.ValueIterator.constructor | src/indexer/java/com/kno10/reversegeocode/converter/LongObjectHierarchicalMap.java:190-198 | a new iterator has all values of all chunks still to yield |
| HierarchicalMap.ValueIterator.HasNext | src/indexer/java/com/kno10/reversegeocode/converter/LongObjectHierarchicalMap.java:201-210 | it answers whether a value remains, without consuming one |
| HierarchicalMap.ValueIterator.Next | src/indexer/java/com/kno10/reversegeocode/converter/LongObjectHierarchicalMap.java:213-216 | it yields the next remaining value and drops it from what remains |
| HierarchicalMap.HierarchicalMap.constructor | src/indexer/java/com/kno10/reversegeocode/converter/LongObjectHierarchicalMap.java:61-63 | a new map is empty |
| HierarchicalMap.HierarchicalMap.ContainsKey | src/indexer/java/com/kno10/reversegeocode/converter/LongObjectHierarchicalMap.java:83-90 | ids of 2^48 and above are refused; otherwise the answer is whether the id is stored |
| HierarchicalMap.HierarchicalMap.Get | src/indexer/java/com/kno10/reversegeocode/converter/LongObjectHierarchicalMap.java:98-108 | ids of 2^48 and above are refused; otherwise the stored value or none |
| HierarchicalMap.HierarchicalMap.GetIfAbsent | src/indexer/java/com/kno10/reversegeocode/converter/LongIntHierarchicalMap.java:102-113 | ids of 2^48 and above are refused; otherwise the stored value or the default |
| HierarchicalMap.HierarchicalMap.Put | src/indexer/java/com/kno10/reversegeocode/converter/LongObjectHierarchicalMap.java:135-143 | the id finds the value, every other valid id is unchanged, and the size grows by one exactly when the id was new |
| HierarchicalMap.HierarchicalMap.ComputeSize | src/indexer/java/com/kno10/reversegeocode/converter/LongObjectHierarchicalMap.java:154-160 | the size is the number of stored ids, summed over the chunks |
| HierarchicalMap.HierarchicalMap.Values | src/indexer/java/com/kno10/reversegeocode/converter/LongObjectHierarchicalMap.java:167-169 | the iterator yields every stored value once, as many as the size |
| OsmMeta.FirstWeak | src/indexer/java/com/kno10/reversegeocode/converter/ParseOSM.java:670-671 | with no fallback keys there is no fallback value |
| OsmMeta.FoldRuleSpec | src/indexer/java/com/kno10/reversegeocode/converter/ParseOSM.java:654-693 | after a tag list, a field holds the value of the last tag with one of its main keys; failing that, the value it already had; failing that, the first fallback tag's value |
| OsmMeta.TabIndex | src/indexer/java/com/kno10/reversegeocode/converter/ParseOSM.java:700-708 | the tab position found is the first tab of the text, and none is reported only when the text has no tab |
| OsmMeta.SplitJoin | src/indexer/java/com/kno10/reversegeocode/converter/ParseOSM.java:700-708 | tab-joined fields without tabs split back into the same fields |
| OsmMeta.Decimal | src/indexer/java/com/kno10/reversegeocode/converter/ParseOSM.java:634 | the decimal form of an id contains no tab, so an id can be a record field |
| OsmMeta.ConvUpdateRules | src/indexer/java/com/kno10/reversegeocode/converter/ParseOSM.java:654-693 | each converter field follows its own keys: `name:en` overrides and `int_name` only fills `inam`, `wikipedia` overrides and `wikipedia:en` only fills `wiki`, the others take the last value; the id is untouched |
| OsmMeta.ConvApplyRules | src/indexer/java/com/kno10/reversegeocode/converter/ParseOSM.java:632-652 | over a tag list, each converter field is the fold of its own rule |
| OsmMeta.ConvPrecedence | src/indexer/java/com/kno10/reversegeocode/converter/ParseOSM.java:632-652 | after a reset, each of the seven fields depends only on the entity's own tags, with the precedences above (the English name and Wikipedia link with their fallbacks, the other five the last tag of their keys), and the id is the kind letter and number |
| OsmMeta.ConvAcceptTags | src/indexer/java/com/kno10/reversegeocode/converter/ParseOSM.java:695-698 | an entity is accepted exactly when its tags give an admin level, a name and `boundary=administrative` |
| OsmMeta.ConvFields | src/indexer/java/com/kno10/reversegeocode/converter/ParseOSM.java:700-708 | a converter record has seven fields |
| OsmMeta.ConvRecordSplit | src/indexer/java/com/kno10/reversegeocode/converter/ParseOSM.java:700-708 | when no value contains a tab, the record splits back into its seven fields, the second being the international name or else the name and the third the place type or else empty |
| OsmMeta.ConverterMetadata.constructor | src/indexer/java/com/kno10/reversegeocode/converter/ParseOSM.java:618-619 | all fields start unset |
| OsmMeta.ConverterMetadata.Reset | src/indexer/java/com/kno10/reversegeocode/converter/ParseOSM.java:621-630 | every field is cleared, the id included |
| OsmMeta.ConverterMetadata.UpdateMetadata | src/indexer/java/com/kno10/reversegeocode/converter/ParseOSM.java:654-693 | one tag changes the fields as the update rule says |
| OsmMeta.ConverterMetadata.ResetEntity | src/indexer/java/com/kno10/reversegeocode/converter/ParseOSM.java:632-652 | the fields become those of the entity's own tags after a full clear, with the id set to the kind letter and number |
| OsmMeta.ConverterMetadata.Accept | src/indexer/java/com/kno10/reversegeocode/converter/ParseOSM.java:695-698 | the object accepts exactly when its fields are accepted |
| OsmMeta.BuildUpdateRules | src/main/java/com/kno10/reversegeocode/builder/ParseOSM.java:616-670 | each of the nine builder fields follows its own keys, including the country code that only fills from the other country keys and takes two letters of an ISO code |
| OsmMeta.BuildUpdateFails | src/main/java/com/kno10/reversegeocode/builder/ParseOSM.java:644-648 | an update fails exactly for an ISO code tag shorter than two characters while the country is unset, where `substring(0, 2)` throws |
| OsmMeta.BuildApplyRules | src/main/java/com/kno10/reversegeocode/builder/ParseOSM.java:597-614 | over a tag list that does not fail, each of the nine builder fields is the fold of its own rule |
| OsmMeta.BuildApplyStops | src/main/java/com/kno10/reversegeocode/builder/ParseOSM.java:597-614 | once a tag has failed, the whole tag list fails |
| OsmMeta.BuildPrecedence | src/main/java/com/kno10/reversegeocode/builder/ParseOSM.java:597-605 | after a relation reset, all eight fields that `reset()` clears depend only on the relation's own tags, with the international name, country and Wikipedia link taking their fallbacks |
| OsmMeta.BuildResetStale | src/main/java/com/kno10/reversegeocode/builder/ParseOSM.java:586-595 | `reset()` leaves the English name of the previous relation in place, and a way, which is not reset at all, can be accepted on the previous entity's tags alone |
| OsmMeta.BuildFreshOwnTags | src/main/java/com/kno10/reversegeocode/builder/ParseOSM.java:586-614 | the corrected reset clears every field, so each field depends only on the entity's own tags |
| OsmMeta.BuildFields | src/main/java/com/kno10/reversegeocode/builder/ParseOSM.java:677-686 | a builder record has eight fields |
| OsmMeta.BuildRecordSplit | src/main/java/com/kno10/reversegeocode/builder/ParseOSM.java:677-686 | when no value contains a tab, the record splits back into its eight fields, with the English name falling back to the name and the country to empty |
| OsmMeta.BuilderMetadata.constructor | src/main/java/com/kno10/reversegeocode/builder/ParseOSM.java:582-584 | all fields start unset |
| OsmMeta.BuilderMetadata.Reset | src/main/java/com/kno10/reversegeocode/builder/ParseOSM.java:586-595 | the fields `reset()` lists are cleared; the English name is kept |
| OsmMeta.BuilderMetadata.UpdateMetadata | src/main/java/com/kno10/reversegeocode/builder/ParseOSM.java:616-670 | one tag changes the fields as the update rule says, or fails on a short ISO code and changes nothing |
| OsmMeta.BuilderMetadata.ApplyTags | src/main/java/com/kno10/reversegeocode/builder/ParseOSM.java:608-613 | the tags are applied in order, failing when any tag fails |
| OsmMeta.BuilderMetadata.ResetRelation | src/main/java/com/kno10/reversegeocode/builder/ParseOSM.java:597-605 | the fields are cleared as `reset()` does and then the relation's tags are applied |
| OsmMeta.BuilderMetadata.ResetWay | src/main/java/com/kno10/reversegeocode/builder/ParseOSM.java:607-614 | the way's tags are applied on top of whatever the fields held |
| OsmMeta.BuilderMetadata.Accept | src/main/java/com/kno10/reversegeocode/builder/ParseOSM.java:672-675 | the object accepts exactly when its fields are accepted |
| OsmPass.ConvPackRoundTrip | src/indexer/java/com/kno10/reversegeocode/converter/ParseOSM.java:335-352 | for the asserted ranges, the packed coordinate is a non-negative int whose low half gives back the longitude step and whose high half the latitude step |
| OsmPass.PackExact | src/indexer/java/com/kno10/reversegeocode/converter/ParseOSM.java:340 | the shift-and-or packing equals the arithmetic value `ilat * 2^16 + ilon` |
| OsmPass.SplitHalves | src/indexer/java/com/kno10/reversegeocode/converter/ParseOSM.java:344-352 | masking the low 16 bits and shifting right by 16 recover the two halves of such a value |
| OsmPass.BuildPackRoundTrip | src/main/java/com/kno10/reversegeocode/builder/ParseOSM.java:296-319 | with the builder's offsets of 0x8000 and 0x4000, signed steps in range round-trip through the packed int |
| OsmPass.ConvWayData | src/indexer/java/com/kno10/reversegeocode/converter/ParseOSM.java:152-174 | a way with no nodes fails (the first-node read is out of bounds); otherwise its node list is kept and its flag is 2 exactly when it is closed and has an `admin_level` or `boundary` key, else 0 |
| OsmPass.BuildWayFlagWrong | src/main/java/com/kno10/reversegeocode/builder/ParseOSM.java:122 | the builder compares the first node with the flag slot instead of the last node: a closed boundary way gets flag 0 and an open way whose first node id is 0 gets flag 2 |
| OsmPass.OrOne | src/indexer/java/com/kno10/reversegeocode/converter/ParseOSM.java:221 | setting bit 0 of a flag keeps its other bits |
| OsmPass.MarkWaysSpec | src/indexer/java/com/kno10/reversegeocode/converter/ParseOSM.java:207-222 | a relation marks exactly its way members that are known, setting bit 0 of their flag; node lists and the set of ways are unchanged |
| OsmPass.Pruned | src/indexer/java/com/kno10/reversegeocode/converter/ParseOSM.java:243-251 | exactly the ways with a nonzero flag survive, unchanged |
| OsmPass.PutKeepsValue | src/indexer/java/com/kno10/reversegeocode/converter/ParseOSM.java:253 | storing the marker value again keeps every marked node marked |
| OsmPass.PutStoredKeepsKeys | src/indexer/java/com/kno10/reversegeocode/converter/ParseOSM.java:302 | overwriting a stored node changes no node's presence |
| OsmPass.FirstPass.constructor | src/indexer/java/com/kno10/reversegeocode/converter/ParseOSM.java:151-156 | the first pass starts with no ways and an empty node map |
| OsmPass.FirstPass.ParseWay | src/indexer/java/com/kno10/reversegeocode/converter/ParseOSM.java:152-174 | a way is stored under its id with its node list and flag; an empty way fails and stores nothing |
| OsmPass.FirstPass.ParseRelation | src/indexer/java/com/kno10/reversegeocode/converter/ParseOSM.java:193-223 | a relation with an `admin_level` key marks its way members; any other relation changes nothing |
| OsmPass.FirstPass.PutNodes | src/indexer/java/com/kno10/reversegeocode/converter/ParseOSM.java:252-255 | the new node map is the old one with each node of the way put, in order, with the marker; so every node is marked and no marked node is lost |
| OsmPass.FirstPass.Complete | src/indexer/java/com/kno10/reversegeocode/converter/ParseOSM.java:230-267 | unflagged ways are dropped; afterwards a slot of the node map holds the marker exactly when a node of a kept way lands in it, every other slot is as before, and the pass fails exactly when the map is empty |
| OsmPass.PutMarkers | src/indexer/java/com/kno10/reversegeocode/converter/ParseOSM.java:252-255 | after a list of nodes is put with the marker, a slot holds the marker exactly when a listed node lands in it, and its old value otherwise |
| OsmPass.SlotOnWaysInRange | src/indexer/java/com/kno10/reversegeocode/converter/ParseOSM.java:243-255 | for ids below 2^48 the marked slots are exactly the node ids of the kept ways |
| OsmPass.SecondPass.constructor | src/indexer/java/com/kno10/reversegeocode/converter/ParseOSM.java:270-271 | the second pass starts with the first pass's node map and no kept nodes |
| OsmPass.SecondPass.ProcessNode | src/indexer/java/com/kno10/reversegeocode/converter/ParseOSM.java:293-303 | an id of 2^48 or above fails; a wanted node gets its packed coordinates and is counted; any other node changes nothing; the set of stored nodes never changes |
| OsmPass.SecondPass.Complete | src/indexer/java/com/kno10/reversegeocode/converter/ParseOSM.java:321-332 | the pass fails exactly when no node was kept |
| OsmRing.CoordIsGetIfAbsent | src/indexer/java/com/kno10/reversegeocode/converter/LongIntHierarchicalMap.java:102-113 | below 2^48 a node's coordinate is what `getIfAbsent(id, Integer.MIN_VALUE)` returns; from 2^48 on `getIfAbsent` throws |
| OsmRing.EmitDedup | src/indexer/java/com/kno10/reversegeocode/converter/ParseOSM.java:406-424 | the coordinates written for a way never repeat the previous one (nor the starting value) back to back |
| OsmRing.EmitOrigin | src/indexer/java/com/kno10/reversegeocode/converter/ParseOSM.java:408-423 | every coordinate written is that of a node of the way |
| OsmRing.EmitCovers | src/indexer/java/com/kno10/reversegeocode/converter/ParseOSM.java:408-423 | every known coordinate of a node of the way appears among the written ones, unless it equals the starting value |
| OsmRing.ConvWayOutputSpec | src/indexer/java/com/kno10/reversegeocode/converter/ParseOSM.java:394-439 | a way yields a line exactly when it was kept by the first pass, its tags are accepted, it is closed and it has at least two distinct consecutive coordinates; the line is its record followed by those coordinates |
| OsmRing.BuildWayFixedSpec | src/main/java/com/kno10/reversegeocode/builder/ParseOSM.java:363-406 | the corrected builder test writes a line for a kept, accepted way exactly when it is closed and has two coordinates |
| OsmRing.BuildWayClosedWrong | src/main/java/com/kno10/reversegeocode/builder/ParseOSM.java:392 | the builder compares the last coordinate value with the first node id: a closed square way whose coordinates are known writes nothing, while the corrected test writes it |
| OsmRing.FreeShrinks | src/indexer/java/com/kno10/reversegeocode/converter/ParseOSM.java:584 | marking a free fragment reduces the number of free fragments, which bounds the recursion |
| OsmRing.SearchSound | src/indexer/java/com/kno10/reversegeocode/converter/ParseOSM.java:576-603 | a successful ring search returns a chain of free, distinct fragments, each continuing where the previous one ended (forward or reversed), that ends at the starting node |
| OsmRing.SearchComplete | src/indexer/java/com/kno10/reversegeocode/converter/ParseOSM.java:576-603 | whenever such a chain exists among the fragments from the current position, the search succeeds |
| OsmRing.SearchIndices | src/indexer/java/com/kno10/reversegeocode/converter/ParseOSM.java:579 | every step of a found chain names a fragment of the list |
| OsmRing.MarkSpec | src/indexer/java/com/kno10/reversegeocode/converter/ParseOSM.java:584 | marking a chain sets every fragment on it to assigned and never clears a mark |
| OsmRing.AssignSpec | src/indexer/java/com/kno10/reversegeocode/converter/ParseOSM.java:547-574 | after ring assignment, every fragment from the start position on, and every one already marked, is marked |
| OsmRing.AssignLines | src/indexer/java/com/kno10/reversegeocode/converter/ParseOSM.java:556-563 | every line written by the assignment starts with the relation's record and ends with a newline |
| OsmRing.ScanFrags | src/indexer/java/com/kno10/reversegeocode/converter/ParseOSM.java:480-492 | the fragments collected from a relation have distinct first and last nodes (closed ways are written directly) |
| OsmRing.ScanFragsFrom | src/indexer/java/com/kno10/reversegeocode/converter/ParseOSM.java:465-492 | every collected fragment is the node list of a way member of the relation |
| OsmRing.ScanLines | src/indexer/java/com/kno10/reversegeocode/converter/ParseOSM.java:482-489 | every line written for a closed member starts with the record and ends with a newline |
| OsmRing.RelationLinesSpec | src/indexer/java/com/kno10/reversegeocode/converter/ParseOSM.java:452-504 | a relation that is not accepted writes nothing; every line it writes starts with its record and ends with a newline |
| OsmRing.LastCoordCons | src/indexer/java/com/kno10/reversegeocode/converter/ParseOSM.java:423 | the last coordinate of a written sequence is found by following it from the front |
| OsmRing.ThirdPass.constructor | src/indexer/java/com/kno10/reversegeocode/converter/ParseOSM.java:354-355 | the third pass starts with the node map, an empty line buffer and no output |
| OsmRing.ThirdPass.EmitWay | src/indexer/java/com/kno10/reversegeocode/converter/ParseOSM.java:404-424 | the coordinate loop appends the way's deduplicated coordinates, counts them and returns the last one |
| OsmRing.ThirdPass.ParseWayIndexer | src/indexer/java/com/kno10/reversegeocode/converter/ParseOSM.java:394-439 | the output grows by exactly the converter's line for the way, if any |
| OsmRing.ThirdPass.ParseWayBuilder | src/main/java/com/kno10/reversegeocode/builder/ParseOSM.java:363-406 | the output grows by exactly the builder's line for the way, as written, if any |
| OsmRing.ThirdPass.ParseRelation | src/indexer/java/com/kno10/reversegeocode/converter/ParseOSM.java:452-504 | the output grows by the lines of the relation's closed members followed by the lines of its assembled rings |
| OsmRing.ThirdPass.ScanLoop | src/indexer/java/com/kno10/reversegeocode/converter/ParseOSM.java:465-493 | the member loop writes the closed members' lines and returns the open ones as fragments |
| OsmRing.ThirdPass.TakeMember | src/indexer/java/com/kno10/reversegeocode/converter/ParseOSM.java:466-492 | one member either is skipped, writes its own line, or becomes a fragment |
| OsmRing.ThirdPass.AssignFragments | src/indexer/java/com/kno10/reversegeocode/converter/ParseOSM.java:494-500 | with all fragments unmarked, the output grows by the ring assignment's lines |
| OsmRing.ThirdPass.AppendToBuf | src/indexer/java/com/kno10/reversegeocode/converter/ParseOSM.java:506-525 | the buffer grows by the deduplicated coordinates of the fragment from the given position, taking the node before it as the previous one |
| OsmRing.ThirdPass.AppendToBufReverse | src/indexer/java/com/kno10/reversegeocode/converter/ParseOSM.java:527-545 | the buffer grows by the deduplicated coordinates of the fragment walked backwards from its second-to-last node |
| OsmRing.ThirdPass.RingFrom | src/indexer/java/com/kno10/reversegeocode/converter/ParseOSM.java:576-603 | the recursive search succeeds exactly when the reference search does; on success it marks that chain and appends its text, on failure it restores flags and buffer |
| OsmRing.ThirdPass.TryAt | src/indexer/java/com/kno10/reversegeocode/converter/ParseOSM.java:580-600 | trying one fragment does the same for chains that start with it |
| OsmRing.ThirdPass.RingAssignment | src/indexer/java/com/kno10/reversegeocode/converter/ParseOSM.java:547-574 | the flags and the output end as the reference assignment says, and the record prefix of the buffer is kept |
| OsmRing.ThirdPass.AssignAt | src/indexer/java/com/kno10/reversegeocode/converter/ParseOSM.java:550-573 | one iteration of the outer loop advances the reference assignment by one fragment |

## Left out

- Rendering: the JavaFX scene, path and snapshot in every `render`. The rendered coverage of a tile is an input grid of bytes (`Raster.TransferPixels*` take it as `img`).
- `BBox` and `Entities.Line`: coordinates are exact integers standing for the `float` degrees of `Float.parseFloat`. The rounding of `width()`, `height()` and the `size()` product is not modelled, so the `minsize` filter (`Entities.Kept`) and the size order of `compareTo` (`Entities.SortedBySize`) are decided on exact values where Java compares rounded ones.
- Floating point: `Viewport` projections, the clip rectangle, the float header fields (kept as 32-bit patterns), `Math.round` in `encodeLonLat` and `String.format` of coordinates. Coordinates are integer steps after rounding, and the written text of a coordinate is one token per packed value.
- `Geocoder.ReverseGeocoder.Lookup`: takes the pixel column and row directly; the float projection from longitude and latitude is not modelled.
- File and stream I/O, gzip, the regular-expression line parser, memory mapping and `close`. Files are byte sequences; a parsed polygon line is a `Line` value, and a line the expressions reject is `None`.
- UTF-8 encoding and decoding: records are character strings stored one byte per character.
- PBF parsing: the protobuf getters, the delta decoding of ids and the string table (`getStringById`). Ways, relations and tags arrive as decoded values.
- `RowCodec.CompressRow`: one row of `compress`. The slice loop that copies the rows of a slice into the compressed-row table at `slicestart` and sums their sizes is not modelled. The same goes for the tile, level and slice loops of the three `render` methods, which only sequence the modelled steps.
- Logging, timing, memory statistics, `visualize`, `MapStatistics`, the benchmark and the test-query programs.
- Hash-map and hash-set iteration orders are inputs, as the order a map yields its keys. `Collections.sort` of the entities is an input that lists the set once (`Entities.ListsSet`) in the order of `compareTo` (`Entities.SortedBySize`); `IntArrays.quickSort` is an input that satisfies `Codes.SortedByCount`.
- Concurrency: `ReverseGeocoder` is single-threaded by its own documentation.
- Java `assert` statements are disabled at run time. The model does not fail where they would; lemmas that need an asserted range state it as a precondition (`OsmPass.ConvPackRoundTrip`, `OsmPass.BuildPackRoundTrip`).
- `Raster.TransferPixelsLayered`: the layered builder never checks that `entnum` stays below 2^24, unlike the sliced one. `Raster.PackWide` shows what a larger number does: it keeps its low 24 bits as the id and ORs the rest into the coverage. `Raster.LayeredCellSpec` and `Raster.LayeredMatchesV0` state the rule only below 2^24.
- `Hierarchy.BestCandidateSliced`: the running `total` is an unbounded natural number. Java's `total += c` and the per-parent counts of `addTo` are `int`, so an entity with 2^31 or more voting pixels gets a total that wraps to zero or below. This is not modelled.
- `Hierarchy.ChooseParentsSliced`: stores the unbounded total in `cnt[i]`. With a wrapped total at or below zero, Java's descending renumbering reaches that entity only after its `cnt[p] <= 0` stop, so the entity keeps code -1; the model codes it.
- `Hierarchy.TotalPositive`: holds for totals below 2^31. With 2^31 or more votes Java's `int` total can be zero or negative although the entity voted.
- `Hierarchy.FlattenLayered`: requires that no id drawn at this level is an owner already in the cumulative grid. That holds for entity numbers below 2^24, which are fresh per level. The layered builder does not check that bound, and a larger number reads back as a smaller id (`Raster.LayeredNumberAliases`) that may be an older owner; such inputs are not modelled.
- `OsmRing.Coord`: node ids of 2^48 or more are not refused. Java's `getIfAbsent` throws "Too large node ids for this memory layout" for them; `Coord` reads the slot such an id aliases to, and `OsmRing.CoordIsGetIfAbsent` states where the two agree.
- `OsmRing.ThirdPass.EmitWay`: a way node id of 2^48 or more does not fail. Java's `getIfAbsent` throws at converter ParseOSM.java:410; the model writes the coordinate of the aliased slot, or skips the node.
- `OsmRing.ThirdPass.ParseWayIndexer`: the same unrefused node ids of 2^48 or more, through `EmitWay`.
- `OsmRing.ThirdPass.ParseWayBuilder`: the same unrefused node ids of 2^48 or more; Java's builder throws at builder ParseOSM.java:378.
- `OsmRing.ThirdPass.AppendToBuf`: a fragment node id of 2^48 or more does not fail, where Java's `getIfAbsent` throws (converter ParseOSM.java:508 and 511, builder ParseOSM.java:473 and 476).
- `OsmRing.ThirdPass.AppendToBufReverse`: the same, where Java throws at converter ParseOSM.java:528 and 532 and builder ParseOSM.java:493 and 497.
- `OsmRing.ThirdPass.RingFrom`: through `AppendToBuf` and `AppendToBufReverse`, a fragment with a node id of 2^48 or more is searched as if the id were its aliased slot; the same holds for `OsmRing.ThirdPass.TryAt`, `OsmRing.ThirdPass.RingAssignment` and `OsmRing.ThirdPass.AssignAt`, where Java stops with the exception.
- `Codes.RenumberSliced`: the debug log before the renumbering loop reads `cnt[tmp[2]]`, which throws when there are fewer than three metadata slots (at most one entity besides entity 0). Logging is left out, so the model renumbers such inputs too.
- `Entities.NumberV0`: the progress logging computes `entnum % div` with `div = order.size() / 10`, which throws for one to nine entities. Logging is left out, so the model numbers such orders too.
- `Container.WriteIndex`: the running offset is an unbounded integer. A file of 2^31 bytes or more, where Java's `pos` would wrap, is not modelled. The reader lemmas require a smaller file.
- `HierarchicalMap.HierarchicalMap.ComputeSize`: the size is a natural number; an `int` overflow past 2^31 - 1 entries is not modelled.
- `HierarchicalMap.HierarchicalMap.constructor`: only the default shift of 16 is modelled; the constructor taking a shift is not.
- `HierarchicalMap.ValueIterator.Next`: returns no value when the iterator is exhausted, where Java throws; `remove` is not modelled.
- `HierarchicalMap.HierarchicalMap.GetIfAbsent`: one generic class stands for the `int`, `long` and object variants, whose code differs only in the value type.
- `OsmRing.ThirdPass.ParseRelation`: the fragment flags are a fresh array per relation. In Java they live in the last slot of the way's own node array, so a way listed twice in one relation shares one flag.
- `OsmRing.ThirdPass.ParseRelation`: requires every stored way to have a node. The first pass refuses empty ways, which makes this hold. For an empty way the builder version's closed test reads `nodes[nodes.length - 2]`, index -1 of the one-slot array (builder ParseOSM.java:446), and crashes; that crash is not modelled.
- `OsmRing.ThirdPass.RingAssignment`: the buffer after the call is stated only up to the record prefix. Java leaves the text of the last attempt behind, and nothing reads it before the next truncation.
- `OsmRing.ThirdPass.ParseWayIndexer`: the tag record and the acceptance verdict are parameters. They are produced by `OsmMeta`, whose reset-and-apply is proved there.
- `OsmPass.FirstPass.ParseWay`: the empty way fails as an error value. Java throws an index exception here.

## Findings

| source | as written | input that shows it | evidently intended | confidence | as-written member | corrected member |
|---|---|---|---|---|---|---|
| src/main/java/com/kno10/reversegeocode/builder/BuildIndex.java:329-333 | the count check refuses only more than 0xFFFF codes, but the high byte of a triple carries the 0x80 marker, leaving 15 bits for the code | 0x8001 used entities: codes 0x8000 and 0 are stored as the same triple | refuse more than 0x8000 codes | high (not executed) | Codes.GuardV0AdmitsCollision | Codes.V0RowRoundTrip |
| src/main/java/com/kno10/reversegeocode/builder/BuildIndex.java:371-380 | slot 0 of the metadata array is always "Earth" and the array has exactly `c` slots, although `c` counts entity 0 only when some pixel is unclaimed | a grid in which every pixel has an entity (`marks = [0, 1]`): the single record is stored past the end | store the records of exactly the coded entities, as the layered builder does | high (not executed) | Codes.MetaV0OutOfBounds | Codes.MetaOfCode |
| src/indexer/java/com/kno10/reversegeocode/indexer/BuildLayeredIndexSliced.java:495 | the tie test compares the vote count with the current best parent's id (`c < best`) | votes 3 for parent 2 and 3 for parent 1: the choice is 2 or 1 depending on hash order | among equally voted parents take the smallest id (`p < best`, as in the layered builder) | medium (not executed) | Hierarchy.PickSlicedOrderDependent | Hierarchy.PickParent |
| src/indexer/java/com/kno10/reversegeocode/indexer/BuildLayeredIndexSliced.java:490-507 | all levels are chained in one pass in hash order, so a record may be extended with its parent's record before or after that parent's own extension | entity 3 under 2 under 1: hash order 3, 2, 1 yields "C\0B\0" instead of "C\0B\0A\0" | chain from the top level down, one level at a time, as the layered builder does | medium (not executed) | Hierarchy.SlicedMetaOrderDependent | Hierarchy.ReducedMetaChains |
| src/indexer/java/com/kno10/reversegeocode/converter/LongObjectHierarchicalMap.java:135-143 | `put` has no range check at all, and the lookups refuse only ids of 2^48 and above, so ids outside the 48-bit range land on the slot of a valid id | `put(2^48 + 5, v)` makes `get(5)` return `v`; `put(-1, v)` makes `get(2^48 - 1)` return `v` | keys limited to the 48-bit ids 0 .. 2^48 - 1, refused otherwise | medium (not executed) | HierarchicalMap.PutAliases | HierarchicalMap.PutCheckedIsolated |
| src/main/java/com/kno10/reversegeocode/builder/ParseOSM.java:122 | the closed-way test compares the first node with `nodes[rcount]`, the flag slot (0), instead of the last node | way 5, 7, 5 with `admin_level` gets flag 0; open way 0, 7, 9 with `boundary` gets flag 2 | compare with `nodes[rcount - 1]`, as the converter does | high (not executed) | OsmPass.BuildWayFlagWrong | OsmPass.ConvWayData |
| src/main/java/com/kno10/reversegeocode/builder/ParseOSM.java:392 | the closed test compares the last written coordinate value with the first node's id | the square way 1, 2, 3, 1 with coordinates 100, 200, 300 writes nothing | compare the last node id with the first (`id == w.getRefs(0)`), as the converter does | high (not executed) | OsmRing.BuildWayClosedWrong | OsmRing.BuildWayFixedSpec |
| src/main/java/com/kno10/reversegeocode/builder/ParseOSM.java:586-614 | `reset()` does not clear the English name, and `reset(Way)` does not call `reset()` at all | a relation with `name:en=x` followed by one without: the second record carries `x`; a way after an accepted relation is accepted with no tags | clear every field before applying an entity's tags, as the converter does | high (not executed) | OsmMeta.BuildResetStale | OsmMeta.BuildFreshOwnTags |
