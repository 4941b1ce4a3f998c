# php-spx profiling core in Dafny

SPX is a profiler for PHP. It comes as a PHP extension written in C and a web UI written in JavaScript. This project models the core of both halves and proves properties of the model.

The extension side:

- **Configuration** (`src/spx_config.c`): the INI, HTTP header, query string and environment sources, their defaults and their fix-ups.
- **Request entry points** (`src/php_spx.c`): access checks, output file names, the single finish.
- **The tracing profiler and its sampling wrapper**: the call stack, the function table with its hash index, the metric collector and its noise barrier, and the events they emit.
- **The five reporters**: full, flat profile (both copies of it), Google Trace Event, trace and callgrind. Each turns events into text.
- **Helpers**: the string builder with its fixed-point double formatting, the table formatter, JSON escaping and the tokenizer macro.

The web UI side (`assets/web-ui/js`):

- `math.js` ranges and `fmt.js` number formatting.
- The packed record arrays of `utils.js`.
- From `profileData.js`: the call list, the profile builder, the call tree, the flat statistics, the time-range tree, and the queries over that tree.

How the source is modelled:

- Imperative code becomes classes and methods with `modifies` frames and loop invariants. Each method is proved against specification functions, and those functions carry their own lemmas.
- Pure code becomes datatypes, functions and lemmas.
- Output streams are strings that the reporters append to.
- Fatal errors (`spx_utils_die`, thrown JavaScript errors) become `Result` values.
- Clocks, resource readings, `rand`, `isatty`, `getenv` and the PHP superglobals are parameters.

Metric values (the C `double` vectors and the web UI numbers) are exact reals. Rounding is modelled where the source makes it observable: a C `(int)` cast truncates toward zero and, past 32 bits, gives INT_MIN as on x86-64, `append_double` rounds, and `Math.round` rounds half up.

## Model

| member | source | states |
|---|---|---|
| RangeMath.Bound | assets/web-ui/js/math.js:8-10 | bound clamps into [low or 0, up or 1]: the result lies in that interval, equals x when x already does, and is the lower bound when the bounds cross |
| RangeMath.ZeroUpperActsAsOne | assets/web-ui/js/math.js:8-10 | an explicit upper bound of 0 behaves exactly like the default upper bound 1 |
| RangeMath.BoundMonotone | assets/web-ui/js/math.js:8-10 | clamping is monotone in x |
| RangeMath.Lerp | assets/web-ui/js/math.js:12-16 | lerp clamps dist to [0, 1]: the result lies between a and b, is a for dist <= 0 and b for dist >= 1 |
| RangeMath.NewInterval | assets/web-ui/js/math.js:86-93 | the Range constructor fails exactly when a > b; every range it builds has a <= b and a non-negative length |
| RangeMath.Intersection | assets/web-ui/js/math.js:107-116 | intersection fails exactly on non-overlapping ranges; otherwise its result is a valid range both operands contain |
| RangeMath.IntersectionGreatest | assets/web-ui/js/math.js:107-116 | every range both operands contain is contained in their intersection |
| RangeMath.HalvesPartition | assets/web-ui/js/math.js:103-105 | subRange(0.5, 0) is [a, center] and subRange(0.5, 1) is [center, b]: both lie in the range, meet at the center and cover it |
| RangeMath.OverlapsSymmetric | assets/web-ui/js/math.js:164-166 | overlaps is symmetric |
| RangeMath.OverlapsReflexive | assets/web-ui/js/math.js:164-166 | every valid range overlaps itself |
| RangeMath.TouchingOverlap | assets/web-ui/js/math.js:164-166 | ranges that only share an end point overlap (closed intervals) |
| RangeMath.ContainsReflexive | assets/web-ui/js/math.js:156-158 | contains is reflexive |
| RangeMath.ContainsTransitive | assets/web-ui/js/math.js:156-158 | contains is transitive |
| RangeMath.ContainedByConverse | assets/web-ui/js/math.js:156-162 | isContainedBy is the converse of contains |
| RangeMath.ContainsImpliesOverlaps | assets/web-ui/js/math.js:156-166 | containment of a valid range implies overlap in both directions |
| RangeMath.Range.New | assets/web-ui/js/math.js:86-93 | new Range fails exactly when a > b, otherwise returns a fresh range with those ends |
| RangeMath.Range.Copy | assets/web-ui/js/math.js:86-97 | copy returns a fresh range with the same ends, and throws exactly when the ends are out of order |
| RangeMath.Range.Scale | assets/web-ui/js/math.js:127-132 | scale multiplies both ends, and so the length, by the factor |
| RangeMath.Range.Shift | assets/web-ui/js/math.js:134-139 | shift moves both ends by dist and keeps the length |
| RangeMath.Range.BoundIn | assets/web-ui/js/math.js:141-154 | bound leaves the range BoundInterval gives; from a <= b it clamps each end with the scalar bound and keeps a <= b |
| RangeMath.BoundIntervalNoReset | assets/web-ui/js/math.js:141-154 | on a valid range the reset branch of bound never fires: the result is the two clamped ends, still ordered |
| WebFmt.Lpad | assets/web-ui/js/fmt.js:4-12 | lpad returns the input unchanged when len is not above its length, otherwise (len - length) copies of the pad string followed by the input; the result always ends with the input and, for a one-char pad, has length max(len, length) |
| WebFmt.JsRound | assets/web-ui/js/math.js:2-6 | Math.round rounds half up: the result is within half a unit of x, ties going up |
| WebFmt.Pct | assets/web-ui/js/fmt.js:40-42 | pct always ends in '%' |
| WebFmt.QuantitySuffix | assets/web-ui/js/fmt.js:24-38 | quantity yields a bare rounded number exactly below 1000 (negatives included); otherwise its text ends with the unit G, M or K chosen at 1e9, 1e6, 1e3 |
| WebFmt.TimeSuffix | assets/web-ui/js/fmt.js:44-58 | time text ends with the unit s, ms, us chosen at 1e9, 1e6, 1e3, and the unit is ns exactly below 1000 |
| WebFmt.MemoryUnitSymmetric | assets/web-ui/js/fmt.js:60-76 | memory text ends with the unit chosen from the magnitude of n against 2^30, 2^20, 2^10, so n and -n get the same unit |
| WebFmt.Fixed2RoundTrip | assets/web-ui/js/fmt.js:26 | toFixed(2) of a value in hundredths loses nothing: reading the text back gives the same hundredths, sign included |
| WebUtils.ShortNameUnchanged | assets/web-ui/js/utils.js:31-35 | truncateFunctionName returns a name shorter than max unchanged |
| WebUtils.TruncatedLength | assets/web-ui/js/utils.js:31-37 | for an even max >= 2 and a name of at least max chars, the result is the first max/2 - 1 chars, the ellipsis and the last max/2 chars: exactly max chars |
| WebUtils.Slice | assets/web-ui/js/utils.js:36 | str.slice with its fractional, negative or oversized bounds resolved against the length never yields more than the string |
| WebUtils.SliceFrom | assets/web-ui/js/utils.js:36 | str.slice with a negative start takes a suffix no longer than the string |
| RecordArray.ToInt8 | assets/web-ui/js/utils.js:126-128 | an Int8Array store keeps the value reduced modulo 2^8 into [-128, 128) |
| RecordArray.ToInt32 | assets/web-ui/js/utils.js:129-131 | an Int32Array store keeps the value reduced modulo 2^32 into [-2^31, 2^31) |
| RecordArray.ParseFields | assets/web-ui/js/utils.js:142-155 | the constructor's first loop keeps every field in declaration order and succeeds exactly when every type is one of int8, int32, float32, float64 |
| RecordArray.SortByWidthSorted | assets/web-ui/js/utils.js:157-159 | the sorted fields have non-increasing byte widths and are a permutation of the declared ones |
| RecordArray.SortedDistinct | assets/web-ui/js/utils.js:157-159 | sorting keeps field names distinct |
| RecordArray.SortedTotal | assets/web-ui/js/utils.js:154-163 | the sorted fields add up to the same byte total as the declared ones |
| RecordArray.FieldDivisions | assets/web-ui/js/utils.js:161-175 | the element size covers the byte total and both typed-array divisions (elemSize / width and offset / width) come out whole |
| RecordArray.LayoutWellFormed | assets/web-ui/js/utils.js:140-179 | the constructor's layout is well formed: fields sorted by width, element size a multiple of every width that holds all fields, each offset a multiple of its width, fieldIndexes naming each field's position |
| RecordArray.SlotsDisjoint | assets/web-ui/js/utils.js:168-179 | distinct (element, field) slots occupy disjoint byte ranges |
| RecordArray.SlotInBuffer | assets/web-ui/js/utils.js:166 | every slot of an element below size lies inside the buffer of size * elemSize bytes |
| RecordArray.TypedIndexInRange | assets/web-ui/js/utils.js:190-209 | the typed-array index idx * typeElemSize + typeOffset is in range exactly when 0 <= idx < size |
| RecordArray.ReadAfterStore | assets/web-ui/js/utils.js:194-223 | after a store into one slot, that slot reads the converted value and every other slot reads what it read before |
| RecordArrays.PackedRecordArray.Init | assets/web-ui/js/utils.js:164-166 | a new buffer of size * elemSize zero bytes over the layout |
| RecordArrays.PackedRecordArray.CollectFields | assets/web-ui/js/utils.js:140-155 | the first constructor loop fails exactly as ParseFields does and otherwise returns the declared fields and the sum of their widths |
| RecordArrays.PackedRecordArray.PlaceFields | assets/web-ui/js/utils.js:168-179 | the second constructor loop computes each field's stride, typed offset and index position |
| RecordArrays.PackedRecordArray.New | assets/web-ui/js/utils.js:124-180 | construction fails exactly when the layout does (unsupported type, or no field so that fields[0] is undefined) and otherwise yields a zeroed array with that layout |
| RecordArrays.PackedRecordArray.Store | assets/web-ui/js/utils.js:190-201 | one typed-array store changes exactly the addressed slot when idx is in range and nothing otherwise (an out-of-range typed-array write is dropped) |
| RecordArrays.PackedRecordArray.SetElementFieldValue | assets/web-ui/js/utils.js:194-202 | throws exactly on an unknown field; otherwise the named slot of element idx takes the converted value and every other slot is unchanged |
| RecordArrays.PackedRecordArray.GetElementFieldValue | assets/web-ui/js/utils.js:215-223 | throws exactly on an unknown field; otherwise reads the slot, undefined out of range |
| RecordArrays.PackedRecordArray.SetElement | assets/web-ui/js/utils.js:186-192 | every field of element idx takes the object's value, 0 when the object lacks it; other elements are unchanged |
| RecordArrays.PackedRecordArray.GetElement | assets/web-ui/js/utils.js:204-213 | returns an object with exactly the layout's fields, each holding the element's slot (undefined out of range) |
| RecordArrays.ChunkedRecordArray.constructor | assets/web-ui/js/utils.js:228-233 | no chunk and size 0 |
| RecordArrays.ChunkedRecordArray.Resize | assets/web-ui/js/utils.js:235-242 | resize appends chunks until there are ceil(newSize / chunkSize), keeps the existing ones and sets size to newSize; a chunk that cannot be built throws before size changes |
| RecordArrays.ChunkedRecordArray.AddChunk | assets/web-ui/js/utils.js:238 | one new zeroed chunk is pushed after the existing ones |
| RecordArrays.ChunkedRecordArray.SetElementFieldValue | assets/web-ui/js/utils.js:256-258 | does not grow: fails when the chunk of idx does not exist or the field is unknown; otherwise changes exactly slot idx % chunkSize of chunk floor(idx / chunkSize) |
| RecordArrays.ChunkedRecordArray.GetElementFieldValue | assets/web-ui/js/utils.js:264-266 | reads slot idx % chunkSize of chunk floor(idx / chunkSize); fails on a missing chunk or an unknown field |
| RecordArrays.ChunkedRecordArray.GetElement | assets/web-ui/js/utils.js:260-262 | returns every field of element idx from its chunk; fails on a missing chunk |
| RecordArrays.ChunkedRecordArray.SetElement | assets/web-ui/js/utils.js:248-254 | grows size to idx + 1 when idx is past the end and never shrinks it; writes every field of element idx (0 for missing ones) into its chunk; other elements keep their values and new chunks read 0 |
| RecordArrays.ChunkedRecordArray.Reserve | assets/web-ui/js/utils.js:249-251 | the growth step: resize(idx + 1) only when idx + 1 exceeds size |
| RecordArrays.ChunkedRecordArray.ChunkAt | assets/web-ui/js/utils.js:253 | element idx lives in chunk floor(idx / chunkSize), which exists exactly when 0 <= idx < chunks * chunkSize |
| RecordArrays.SameSlot | assets/web-ui/js/utils.js:253 | two indices map to the same chunk and position only when equal |
| RecordArrays.CeilDivCovers | assets/web-ui/js/utils.js:236 | every element below the new size lies in one of the ceil(newSize / chunkSize) chunks |
| MetricValues.MinusInverse | assets/web-ui/js/profileData.js:86-100 | sub undoes add: (a - b) + b == a |
| MetricValues.MinusChain | assets/web-ui/js/profileData.js:94-100 | consecutive differences chain: (b - a) + (c - b) == c - a |
| MetricValues.PosNegSplit | assets/web-ui/js/profileData.js:102-120 | addPos of d to x plus addNeg of d to y adds all of d to x + y |
| MetricValues.PlusNegLowers | assets/web-ui/js/profileData.js:102-120 | addNeg can only lower a set and addPos only raise it |
| MetricValues.PlusNegKeepsNonPos | assets/web-ui/js/profileData.js:112-120 | addNeg keeps a non-positive set non-positive |
| MetricValues.PlusPosKeepsNonNeg | assets/web-ui/js/profileData.js:102-110 | addPos keeps a non-negative set non-negative |
| MetricValues.MinMaxBounds | assets/web-ui/js/profileData.js:122-136 | min is below both operands and max above both, metric by metric; on ordered operands they return them |
| MetricValues.LerpByTimeEnds | assets/web-ui/js/profileData.js:34-51 | lerpByTime gives a at a's wall time, b from b's wall time on (the distance is clamped), and every metric stays between a's and b's |
| MetricValues.MetricValueSet.CreateFromMetricsAndValue | assets/web-ui/js/profileData.js:25-32 | one entry per metric, all holding the given value |
| MetricValues.MetricValueSet.LerpByTimeOf | assets/web-ui/js/profileData.js:34-51 | the loop computes lerpByTime: a copy of a for equal wall times, else each metric interpolated at the same distance |
| MetricValues.MetricValueSet.Copy | assets/web-ui/js/profileData.js:57-64 | a fresh set with the same values |
| MetricValues.MetricValueSet.Set | assets/web-ui/js/profileData.js:78-84 | every value becomes v |
| MetricValues.MetricValueSet.Add | assets/web-ui/js/profileData.js:86-92 | values become the old values plus the other's, metric by metric (the other read before the update, so adding a set to itself doubles it) |
| MetricValues.MetricValueSet.Sub | assets/web-ui/js/profileData.js:94-100 | values become the old values minus the other's |
| MetricValues.MetricValueSet.AddPos | assets/web-ui/js/profileData.js:102-110 | only the other's positive components are added |
| MetricValues.MetricValueSet.AddNeg | assets/web-ui/js/profileData.js:112-120 | only the other's negative components are added |
| MetricValues.MetricValueSet.Min | assets/web-ui/js/profileData.js:122-128 | values become the metric-wise minimum |
| MetricValues.MetricValueSet.Max | assets/web-ui/js/profileData.js:130-136 | values become the metric-wise maximum |
| CallLists.Stored | assets/web-ui/js/utils.js:248-254 | storing record idx grows the list to idx + 1 when idx is past the end (the elements in between read as zero records), puts the record at idx and leaves every other element as it was |
| CallLists.CycleDepthBelowDepth | assets/web-ui/js/profileData.js:244-270 | the cycle depth (ancestors with the same functionIdx) never exceeds the depth (all ancestors) |
| CallLists.StackShape | assets/web-ui/js/profileData.js:225-242 | getStack has depth + 1 entries, starts at a root, ends with the call itself, and each entry is the parent of the next |
| CallLists.Truncated | assets/web-ui/js/profileData.js:273-307 | a truncated entry replaces start only by a lower bound with a later wall time and end only by an upper bound with an earlier one; exc reads 0 when either was replaced, otherwise the entry reads exactly the wrapped call |
| CallLists.EnclosingWindowKeepsCall | assets/web-ui/js/profileData.js:282-297 | bounds that enclose the call's wall-time span leave the call untouched |
| CallLists.TruncationNarrows | assets/web-ui/js/profileData.js:282-290 | truncation never widens the call's wall-time span |
| CallLists.PathNames | assets/web-ui/js/profileData.js:159-161 | the names along a stack, one per call, each the name of the call's functionIdx (undefined past the name table) |
| CallLists.InfoOf | assets/web-ui/js/profileData.js:188-270 | what the aggregators read from an entry: its name path has depth + 1 names ending with its own name, and its cycle depth is at most its depth |
| CallLists.CallList.constructor | assets/web-ui/js/profileData.js:311-335 | every function name is "n/a" and there is no call |
| CallLists.CallList.GetCall | assets/web-ui/js/profileData.js:141-144 | getCall (line 364) throws exactly unless 0 <= idx < size |
| CallLists.CallList.SetRawCallData | assets/web-ui/js/profileData.js:345-362 | the record (functionIdx, parentIdx, start, end, exc) is stored at idx as setElement stores it; names are unchanged |
| CallLists.CallList.SetFunctionName | assets/web-ui/js/profileData.js:368-372 | name idx becomes the given name, the array grows when idx is past its end, every other name reads as before |
| CallLists.CallList.GetDepth | assets/web-ui/js/profileData.js:244-253 | the parent walk terminates and counts the call's ancestors |
| CallLists.CallList.GetCycleDepth | assets/web-ui/js/profileData.js:255-270 | the parent walk terminates and counts the ancestors with the call's functionIdx |
| CallLists.CallList.GetAncestors | assets/web-ui/js/profileData.js:225-235 | the ancestors, nearest first, up to a root |
| MetricValuesLists.Element | assets/web-ui/js/utils.js:260-262 | getElement of the sample array: the stored sample, a zeroed slot inside the last allocated chunk, or a missing chunk (an error) past it |
| MetricValuesLists.Stored | assets/web-ui/js/profileData.js:437-447 | setRawMetricValuesData stores the sample at idx, growing the array to idx + 1 with zeroed samples in between, and changes nothing else |
| MetricValuesLists.NearestIn | assets/web-ui/js/profileData.js:506-525 | the bisection of _findNearestIdx terminates inside its range and returns an index whose wall time is time, or which brackets time with its successor |
| MetricValuesLists.FindNearest | assets/web-ui/js/profileData.js:506-525 | _findNearestIdx over the whole list: fails on an empty list, else returns a bracketing index |
| MetricValuesLists.NearestIsFloor | assets/web-ui/js/profileData.js:506-525 | in time-sorted samples the nearest index is the last sample at or before time (up to samples exactly at time) |
| MetricValuesLists.MetricValuesAt | assets/web-ui/js/profileData.js:480-504 | getMetricValues returns the sample whose wall time equals time, else the interpolation between the nearest sample and its upper neighbour; before the first sample it reads element -1 and fails, as it does on an empty list |
| MetricValuesLists.MetricValuesAtWallTime | assets/web-ui/js/profileData.js:480-504 | inside sorted samples the interpolated values carry time itself as their wall time |
| MetricValuesLists.DeltasTelescope | assets/web-ui/js/profileData.js:467-475 | the steps between consecutive points add up to the last point minus the first |
| MetricValuesLists.CostPoints | assets/web-ui/js/profileData.js:454-465 | the points getCumCostStats walks: the values at begin, the samples between the adjusted first and last indices, the values at end |
| MetricValuesLists.CumCost | assets/web-ui/js/profileData.js:449-478 | a zero-length range yields zero stats; otherwise min collects the negative parts of the steps and max the positive ones, so min <= 0 <= max |
| MetricValuesLists.CumCostIsNetChange | assets/web-ui/js/profileData.js:449-478 | min + max is the change of every metric between the values at begin and at end |
| MetricValuesLists.MergeSteps | assets/web-ui/js/profileData.js:467-473 | the loop merges each visited sample's step from the previous point, leaving the envelope of those steps |
| MetricValuesLists.MergeStep | assets/web-ui/js/profileData.js:471-475 | one step: the difference from the previous point is merged into the stats |
| MetricValuesLists.MetricValuesList.constructor | assets/web-ui/js/profileData.js:426-435 | no sample |
| MetricValuesLists.MetricValuesList.SetRawMetricValuesData | assets/web-ui/js/profileData.js:437-447 | the samples become Stored(samples, idx, raw) |
| MetricValuesLists.MetricValuesList.GetCumCostStats | assets/web-ui/js/profileData.js:449-478 | fails exactly when the values at an end cannot be read, otherwise returns fresh stats equal to CumCost |
| ProfileStats.CumCostStats.constructor | assets/web-ui/js/profileData.js:377-380 | a new envelope is zero in every metric for min and for max |
| ProfileStats.CumCostStats.Merge | assets/web-ui/js/profileData.js:382-385 | min absorbs only the negative parts of the other min and max only the positive parts of the other max, keeping min <= 0 <= max |
| ProfileStats.CumCostStats.MergeMetricValues | assets/web-ui/js/profileData.js:387-390 | a delta's negative parts go to min and its positive parts to max, keeping min <= 0 <= max |
| ProfileStats.CumCostStats.GetPosNegRanges | assets/web-ui/js/profileData.js:407-419 | the positive range is [0, max] and the negative range is [min, 0], both well-formed because min <= 0 <= max |
| ProfileStats.EnvelopeSplitsTotal | assets/web-ui/js/profileData.js:382-390 | after folding any deltas into a zero envelope, min + max equals the sum of the deltas, with min <= 0 <= max |
| ProfileStats.StatsOf | assets/web-ui/js/profileData.js:606-634 | the constructor's stats hold, for every function, vectors of the metric count |
| ProfileStats.StatsOfCorrect | assets/web-ui/js/profileData.js:606-634 | a function has an entry iff some call has its index; the entry holds the name of its first call, the number of calls, the deepest cycle depth and the inclusive and exclusive cost summed over its cycle-depth-0 calls only |
| ProfileStats.MergeStats | assets/web-ui/js/profileData.js:640-663 | merge keeps the metric count of every entry |
| ProfileStats.MergeIsConcatenation | assets/web-ui/js/profileData.js:640-663 | merging the stats of two call lists yields exactly the stats of their concatenation |
| ProfileStats.OrderOfKeys | assets/web-ui/js/profileData.js:607-622 | the Map's key order lists each function with stats exactly once |
| ProfileStats.MergeOrderKeys | assets/web-ui/js/profileData.js:641-655 | merge keeps the left key order as a prefix, appends each new key once, and covers exactly the keys of both sides |
| ProfileStats.FunctionsStats.constructor | assets/web-ui/js/profileData.js:606-634 | the loop over the calls builds exactly StatsOf and OrderOf of the calls |
| ProfileStats.FunctionsStats.Merge | assets/web-ui/js/profileData.js:640-663 | the loop over the other object's keys leaves exactly MergeStats of both maps, in MergeOrder |
| CallTrees.ChildIndex | assets/web-ui/js/profileData.js:797-798 | children[functionName]: the position of the child with that name, or none when no child has it |
| CallTrees.AddPath | assets/web-ui/js/profileData.js:793-807 | walking a call's stack from a node, creating missing children, keeps every inc vector at the metric count and the node's name |
| CallTrees.AsWrittenAgrees | assets/web-ui/js/profileData.js:793-807 | away from the names an empty object inherits, the walk as written (a plain object as dictionary) is the corrected walk |
| CallTrees.InheritedNameBreaksBuild | assets/web-ui/js/profileData.js:798-801 | a top-level function named toString makes the walk as written fail where the corrected walk adds the call below a child named toString |
| CallTrees.AddCall | assets/web-ui/js/profileData.js:792-813 | one call of the constructor's loop keeps the tree shaped; a depth-1 call also adds its inc to the root |
| CallTrees.Build | assets/web-ui/js/profileData.js:787-814 | the constructor's tree (root called once) has inc vectors of the metric count everywhere |
| CallTrees.InsertByMinTime | assets/web-ui/js/profileData.js:693-698 | inserting into children sorted by start keeps them sorted and adds exactly that node |
| CallTrees.SortByMinTime | assets/web-ui/js/profileData.js:693-698 | getChildren returns a permutation of the children sorted by earliest start |
| CallTrees.SortKeepsSorted | assets/web-ui/js/profileData.js:693-698 | children already in start order come back unchanged |
| CallTrees.AddPathCountsOnce | assets/web-ui/js/profileData.js:793-807 | adding a call along its stack adds exactly one call to the tree's total |
| CallTrees.BuildCountsCalls | assets/web-ui/js/profileData.js:787-814 | the tree of n calls counts n + 1 calls: the root's one and one per call |
| CallTrees.AddPathKeyed | assets/web-ui/js/profileData.js:734-739 | adding a path keeps sibling names distinct, as the children object's keys are |
| CallTrees.AddPathKeyedAll | assets/web-ui/js/profileData.js:787-814 | the constructor's tree has distinct sibling names at every level |
| CallTrees.MergeNodes | assets/web-ui/js/profileData.js:749-766 | merge adds called and inc, takes the earlier minTime and keeps the node's name and shape |
| CallTrees.MergeAddsTotals | assets/web-ui/js/profileData.js:749-766 | the merged tree counts the calls of both trees |
| CallTrees.MergeKeyed | assets/web-ui/js/profileData.js:754-763 | merging two keyed trees matches children by name, so sibling names stay distinct |
| CallTrees.PruneNode | assets/web-ui/js/profileData.js:768-782 | prune keeps the node's own name, count, inc and start |
| CallTrees.PruneIsPruned | assets/web-ui/js/profileData.js:768-782 | after prune no node keeps a called child whose wall-time inc is below minDuration |
| CallTrees.PruneIdempotent | assets/web-ui/js/profileData.js:768-782 | a tree with nothing to drop is left as it is, so pruning twice is pruning once |
| CallTrees.PruneKeyed | assets/web-ui/js/profileData.js:768-782 | prune only drops children, so sibling names stay distinct |
| CallTrees.PruneShaped | assets/web-ui/js/profileData.js:768-782 | prune keeps every inc vector at the metric count |
| CallTrees.MinInc | assets/web-ui/js/profileData.js:712-719 | getMinInc is componentwise at most the node's own inc |
| CallTrees.MaxCumIncBounds | assets/web-ui/js/profileData.js:721-732 | getMaxCumInc is componentwise at least the node's own inc, and equals it at a leaf whose inc is above -MAX_VALUE |
| CallTrees.CallTreeStats.constructor | assets/web-ui/js/profileData.js:787-814 | the root is the tree built from the calls, keyed and shaped |
| CallTrees.CallTreeStats.Merge | assets/web-ui/js/profileData.js:820-824 | the root becomes the merge of both roots and stays keyed |
| CallTrees.CallTreeStats.Prune | assets/web-ui/js/profileData.js:826-830 | the root becomes its pruned tree, in which nothing is left to drop, and the tree stays well formed |
| CallRangeTrees.Contained | assets/web-ui/js/profileData.js:1009-1014 | the references whose call the range fully contains: a sub-multiset of the input, every one contained |
| CallRangeTrees.ContainedKeepsAll | assets/web-ui/js/profileData.js:1009-1014 | a range that contains every call keeps all the references, in order |
| CallRangeTrees.SplitCounts | assets/web-ui/js/profileData.js:1009-1029 | the first loop puts every contained reference in exactly one of own, left and right, and drops the others |
| CallRangeTrees.SplitPlaced | assets/web-ui/js/profileData.js:1009-1029 | left holds calls the left half contains, right calls only the right half contains, own calls neither half contains |
| CallRangeTrees.Settle | assets/web-ui/js/profileData.js:1031-1041 | a half with fewer than 500 calls is given back to the node; nothing is lost or duplicated |
| CallRangeTrees.InsertByDuration | assets/web-ui/js/profileData.js:1043-1054 | insertion adds exactly that reference |
| CallRangeTrees.InsertKeepsSorted | assets/web-ui/js/profileData.js:1043-1054 | inserting by duration keeps the references longest first |
| CallRangeTrees.SortByDuration | assets/web-ui/js/profileData.js:1043-1054 | the node's references end up as a permutation sorted by decreasing duration |
| CallRangeTrees.SplitFuel | assets/web-ui/js/profileData.js:996-997 | a range of non-zero length splits with all the fuel; only a zero-length range, whose halves are itself, stops |
| CallRangeTrees.PlanWellFormed | assets/web-ui/js/profileData.js:993-1054 | the layout is well formed: children cover the halves, a node owns only calls it contains that no child takes, longest first |
| CallRangeTrees.PlanCounts | assets/web-ui/js/profileData.js:993-1054 | the layout holds every call the range contains, each exactly once |
| CallRangeTrees.PlanFuelIndependent | assets/web-ui/js/profileData.js:993-1041 | when every call lasts longer than the range over 2^(k+1), any fuel from k on builds the same layout, so the recursion ends by itself |
| CallRangeTrees.BuildRootFuelIndependent | assets/web-ui/js/profileData.js:1002-1007 | over the whole profile, with every call longer than some d > 0, the tree does not depend on the fuel once it reaches FuelFor(d, maxWt) |
| CallRangeTrees.FuelFor | assets/web-ui/js/profileData.js:996-997 | after FuelFor(d, L) halvings a range of length L is shorter than d |
| CallRangeTrees.SettleAsWritten | assets/web-ui/js/profileData.js:1033-1041 | as written, a half with at least 500 calls always becomes a child, whatever the range's length |
| CallRangeTrees.ZeroSpanCallsItself | assets/web-ui/js/profileData.js:996-1036 | 500 calls at one instant in a zero-length range: the left half is the range itself and receives every call, so buildAsync calls itself with the same arguments |
| CallRangeTrees.ZeroSpanIsLeaf | assets/web-ui/js/profileData.js:996-1041 | the corrected build keeps a zero-length range as a leaf holding all its contained calls |
| CallRangeTrees.Assemble | assets/web-ui/js/profileData.js:1056-1119 | a node's caches: the stats of its own calls merged with the children's, the call tree pruned at 1/150th of the range, the cost merged from both halves, with min <= 0 <= max |
| CallRangeTrees.Decorate | assets/web-ui/js/profileData.js:1065-1121 | the aggregates over a layout leave the layout unchanged and are well shaped |
| CallRangeTrees.Build | assets/web-ui/js/profileData.js:993-1124 | buildAsync's tree has the planned layout and well-shaped caches |
| CallRangeTrees.BuildWellFormed | assets/web-ui/js/profileData.js:993-1124 | a built tree is well formed and holds every call the range contains exactly once |
| CallRangeTrees.DecorateStats | assets/web-ui/js/profileData.js:1061-1109 | a node's cached functions stats are the stats of all the calls of its subtree |
| CallRangeTrees.DecorateCost | assets/web-ui/js/profileData.js:1063-1113 | a node's cached cumulative cost (min + max) is the change of every metric from the start to the end of its range |
| CallRangeTrees.BuildAggregates | assets/web-ui/js/profileData.js:1061-1113 | the root caches the functions stats of all its calls and the net change of the metrics over its range |
| CallRangeTrees.MergeCostAdds | assets/web-ui/js/profileData.js:1085-1109 | merging a cost whose parts have the right signs adds min + max |
| CallRangeTrees.NetCostJoins | assets/web-ui/js/profileData.js:1070-1098 | the costs of the two halves join into the net change over the whole range |
| CallRangeStats.EmptyStats | assets/web-ui/js/profileData.js:899-906 | the stats of a node the range misses: no function, the range asked for |
| CallRangeStats.MergeRangeStats | assets/web-ui/js/profileData.js:842-846 | TimeRangeStats.merge merges functions stats, call trees and cumulative costs, each by its own merge |
| CallRangeStats.Bound | assets/web-ui/js/profileData.js:917-923 | a bound handed down is kept; otherwise, when the node reaches beyond the range on that side, it is the metric values at the range's end, failing only when those cannot be read |
| CallRangeStats.OverlappingMembers | assets/web-ui/js/profileData.js:926-930 | a reference is kept exactly when it is listed and its call overlaps the range |
| CallRangeStats.OverlappingAppend | assets/web-ui/js/profileData.js:926-937 | the filter distributes over concatenation, keeping order |
| CallRangeStats.OverlappingNone | assets/web-ui/js/profileData.js:926-930 | calls inside a range the query misses are all dropped |
| CallRangeStats.OverlappingAll | assets/web-ui/js/profileData.js:926-930 | calls inside a range the query contains are all kept |
| CallRangeStats.OwnStats | assets/web-ui/js/profileData.js:925-944 | a partially covered node's own stats are those of its overlapping calls truncated to the bounds, with zero cost |
| CallRangeStats.TimeRangeStats | assets/web-ui/js/profileData.js:896-957 | every answer is well shaped and reports the range asked for |
| CallRangeStats.GetTimeRangeStats | assets/web-ui/js/profileData.js:1189-1200 | the root query reports the range given, or the root's range without one |
| CallRangeStats.ClipKeepsContained | assets/web-ui/js/profileData.js:273-307 | inside a range the query contains, truncating to the query's ends changes no call |
| CallRangeStats.ClipSameBounds | assets/web-ui/js/profileData.js:917-923 | a bound not computed yet truncates nothing the query's own bound would, because the node does not reach beyond that end |
| CallRangeStats.RangeFunctionsStats | assets/web-ui/js/profileData.js:896-957 | a query's functions stats are those of the subtree's calls that overlap the range, each truncated to it |
| CallRangeStats.MergeChildStats | assets/web-ui/js/profileData.js:947-950 | merging a child's answer appends the child's truncated overlapping calls to the stats |
| CallRangeStats.DisjointCost | assets/web-ui/js/profileData.js:899-906 | a node the range misses adds no cost |
| CallRangeStats.ContainedCost | assets/web-ui/js/profileData.js:908-915 | a node the range contains answers with its own caches, hence its net change |
| CallRangeStats.LeafCost | assets/web-ui/js/profileData.js:946-954 | a childless node the range overlaps adds the net change over the part of its range covered |
| CallRangeStats.DecoratedSummarised | assets/web-ui/js/profileData.js:1061-1113 | every tree the build decorates has caches equal to the stats of its subtree's calls, at every node |
| CallRangeStats.BuiltRefs | assets/web-ui/js/profileData.js:1002-1029 | the root holds every call of the list within [0, maxWt] exactly once |
| CallRangeStats.WholeProfileStats | assets/web-ui/js/profileData.js:908-915 | without a range the query reads the root's caches: every call's stats and the net change over the profile |
| CallRangeStats.SummarisedQuery | assets/web-ui/js/profileData.js:896-957 | over a summarised root, the query answers as Answers says, with or without a range |
| CallRangeStats.ProfileTimeRangeStats | assets/web-ui/js/profileData.js:1189-1200 | over the built tree: all calls once, whole-profile stats and net cost without a range, the truncated overlapping calls' stats with a range the samples pin down |
| CallRangeQueries.DepthBoundsCount | assets/web-ui/js/profileData.js:878-894 | a tree of depth d (getMaxDepth) has at least d and fewer than 2^d nodes (getNodeCount) |
| CallRangeQueries.KeepMembers | assets/web-ui/js/profileData.js:972-984 | a reference is reported exactly when it is listed, lasts at least minDuration and overlaps the range |
| CallRangeQueries.KeepAppend | assets/web-ui/js/profileData.js:986-988 | the selection distributes over concatenation, keeping order |
| CallRangeQueries.SortedShortTail | assets/web-ui/js/profileData.js:974-977 | in a list sorted by decreasing duration, every call after a short one is short too |
| CallRangeQueries.ShortRest | assets/web-ui/js/profileData.js:974-977 | the early break loses nothing: once one call is too short nothing after it is wanted |
| CallRangeQueries.ScanOwn | assets/web-ui/js/profileData.js:972-984 | the first loop, with its break, appends exactly the wanted own calls, in order |
| CallRangeQueries.NothingWanted | assets/web-ui/js/profileData.js:960-966 | a subtree shorter than minDuration or away from the range has nothing to report, so the early returns lose nothing |
| CallRangeQueries.GetCallRefs | assets/web-ui/js/profileData.js:959-991 | appends to callRefs exactly the wanted calls of the subtree, the node's own first, then each child's |
| CallRangeQueries.ContainedExact | assets/web-ui/js/profileData.js:1009-1014 | a reference is kept by the build exactly when it is listed and the range contains its call |
| CallRangeQueries.BuildCallRefsExact | assets/web-ui/js/profileData.js:959-1054 | over a built tree getCallRefs reports exactly the listed calls inside the tree's range that last at least minDuration and overlap the range asked for |
| CallRangeQueries.GetCallsExact | assets/web-ui/js/profileData.js:1206-1221 | getCalls over the whole call list reports exactly the calls within [0, maxWt] that last at least minDuration and overlap the range |
| ProfileDataBuilders.Lower | assets/web-ui/js/profileData.js:579-583 | Math.min against the running minimum: at most both, and one of them |
| ProfileDataBuilders.Upper | assets/web-ui/js/profileData.js:585-588 | Math.max against the running maximum: at least both, and one of them |
| ProfileDataBuilders.MergeCall | assets/web-ui/js/profileData.js:1285-1293 | after a closed call each metric's bounds cover its start and end values and each call bound covers end - start, moving no further than needed |
| ProfileDataBuilders.Initial | assets/web-ui/js/profileData.js:1234-1254 | setMetadata leaves a well-formed empty builder |
| ProfileDataBuilders.NearestSame | assets/web-ui/js/profileData.js:1311-1319 | the search from the top of the stack finds the nearest frame of the function, or reports that none exists |
| ProfileDataBuilders.Credit | assets/web-ui/js/profileData.js:1305-1310 | the parent frame's children grow by the closed call's inclusive cost and no other frame changes |
| ProfileDataBuilders.Debit | assets/web-ui/js/profileData.js:1311-1319 | only the nearest frame of the same function loses the closed call's exclusive cost |
| ProfileDataBuilders.Exclusive | assets/web-ui/js/profileData.js:1298-1303 | exc is (end - start) - children, metric by metric |
| ProfileDataBuilders.Accounted | assets/web-ui/js/profileData.js:1281-1320 | closing pops one frame and changes only the children of the frames below it |
| ProfileDataBuilders.Advance | assets/web-ui/js/profileData.js:1264-1332 | addEvent fails exactly on an end event with nothing open; a start pushes a frame and hands out the next call index, an end pops one; every event counts |
| ProfileDataBuilders.PushWf | assets/web-ui/js/profileData.js:1265-1279 | a start event opens the next call index on top of the stack with the old top as parent |
| ProfileDataBuilders.CloseWf | assets/web-ui/js/profileData.js:1281-1331 | an end event stores the top call with its function, a lower parent index or -1, its start and end values and exc = (end - start) - children |
| ProfileDataBuilders.CloseAccounts | assets/web-ui/js/profileData.js:1305-1320 | closing a call changes the children of exactly two frames below it: the parent gains the inclusive cost, the nearest same-function frame loses the exclusive cost |
| ProfileDataBuilders.AllStored | assets/web-ui/js/profileData.js:1324-1331 | every call above the closed one was closed before it, so the stored calls now reach callCount |
| ProfileDataBuilders.AdvanceWf | assets/web-ui/js/profileData.js:1264-1332 | every accepted event keeps the builder's invariant |
| ProfileDataBuilders.ReplayWf | assets/web-ui/js/profileData.js:1264-1332 | a replayed stream of events keeps the invariant |
| ProfileDataBuilders.ClosedLinked | assets/web-ui/js/profileData.js:1324-1331 | once nothing is open, every stored call has a parent index below its own |
| ProfileDataBuilders.BalancedStreamLinked | assets/web-ui/js/profileData.js:1234-1332 | a stream that leaves nothing open stores a tree of calls, one per start event |
| ProfileDataBuilders.CloseLeaf | assets/web-ui/js/profileData.js:1298-1320 | a closed call without children has exc equal to its inclusive cost; the frame below gains it, or gets it back when it is the same function |
| ProfileDataBuilders.NestedCall | assets/web-ui/js/profileData.js:1264-1332 | A around B: B's exc is its inclusive cost, A's is what is left of its own (A[0,100] around B[10,40]: 30 and 70) |
| ProfileDataBuilders.RecursiveCall | assets/web-ui/js/profileData.js:1311-1319 | A around a recursive A: the outer call is charged its whole cost (A[0,30] around A[5,20]: 15 and 30) |
| ProfileDataBuilders.DebitNearest | assets/web-ui/js/profileData.js:1311-1319 | the downward loop with its break debits exactly the nearest same-function frame |
| ProfileDataBuilders.ProfileDataBuilder.constructor | assets/web-ui/js/profileData.js:1234-1254 | setMetadata: a call list with a name slot per function, empty lists, no stats, the initial state |
| ProfileDataBuilders.ProfileDataBuilder.AddEvent | assets/web-ui/js/profileData.js:1264-1332 | the new state is Advance of the old one; on the end event with nothing open (where the source throws) the state is unchanged |
| ProfileDataBuilders.ProfileDataBuilder.CloseTop | assets/web-ui/js/profileData.js:1281-1331 | the end-event half updates stats, samples, stack and call list to Close of the old state |
| SpxProfilerTypes.ClampMaxDepth | src/spx_profiler.c:150 | max_depth is kept only inside 0 < max_depth < STACK_CAPACITY, otherwise it becomes STACK_CAPACITY |
| SpxProfilerTypes.Find | src/spx_profiler.c:390-408 | the lookup finds an entry with the same function and class name, or reports that there is none |
| SpxProfilerTypes.GetEntryTable | src/spx_profiler.c:410-481 | func_table_get_entry keeps the table's entries and their indices, returns an entry for the function, adds at most one new zeroed entry at the old size, and returns NULL exactly when the table is full and lacks the function |
| SpxProfilerTypes.TableGetEntry | src/spx_profiler.c:410-481 | the scan over the table's array performs GetEntry in place and keeps the table well formed |
| SpxProfilerTypes.GetEntryIdempotent | src/spx_profiler.c:446-448 | asking again for the same function returns the same entry and adds nothing |
| SpxProfilerTypes.CountSameZero | src/spx_profiler.c:319-338 | the cycle depth is zero exactly when no frame below runs the same function |
| SpxProfilerTypes.NearestExists | src/spx_profiler.c:331-337 | a nearest same-function frame to debit exists exactly when the cycle depth is positive |
| SpxProfilerTypes.AccountedKeepsEntries | src/spx_profiler.c:321-338 | the accounting of call_end touches only the children values of frames with an entry |
| SpxProfilerTypes.AccountAncestors | src/spx_profiler.c:319-338 | the loop over the frames below returns the cycle depth and leaves the frames exactly as Accounted: the frame just below gains inc, the nearest same-function frame loses exc; frames above are untouched |
| SpxProfilerTypes.ChildChargedToParent | src/spx_profiler.c:313-338 | a call B inside a call A of another function: B's exc is its inc and A's exc becomes its span minus B's |
| SpxProfilerTypes.SelfCallDebitsExclusive | src/spx_profiler.c:327-337 | a direct recursive call: the outer frame is parent and nearest frame, gains inc and loses exc, and the cycle depth is 1 |
| SpxProfilerTypes.StatsAfterSums | src/spx_profiler.c:340-348 | a function's stats count every ended call, reach its largest cycle depth, and sum inc and exc over the calls at cycle depth 0 only |
| SpxProfiler.Profiler.constructor | src/spx_profiler.c:129-182 | spx_profiler_create: not finalized, active, max_depth clamped, nothing called, empty stack and function table |
| SpxProfiler.Profiler.Collect | src/spx_profiler.c:241-244 | a reading becomes last, cum is the reading minus the first one and max grows to cover it |
| SpxProfiler.Profiler.CallStart | src/spx_profiler.c:212-280 | a finalized profiler ignores the call; otherwise the stack deepens by one, active is depth < max_depth, and only an active call is counted, takes a function-table entry and, when it gets one, emits CALL_START with its caller |
| SpxProfiler.Profiler.StartFrame | src/spx_profiler.c:246-272 | the recorded frame's entry is GetEntry of the table, its start is the reading and its children zero; no other frame changes; no entry, no event |
| SpxProfiler.Profiler.CallEnd | src/spx_profiler.c:282-366 | the depth drops first; an inactive profiler stops there; an active one collects and, for a frame with an entry, charges inc and exc to the ancestors and the entry's stats and emits CALL_END |
| SpxProfiler.Profiler.EndFrame | src/spx_profiler.c:311-361 | the entry's stats grow as StatsAfter of the ended call, the frames below become Accounted, and the event carries inc = cur - start and exc = inc - children |
| SpxProfiler.Profiler.Finalize | src/spx_profiler.c:368-383 | active is forced, every open frame is ended with one reading each, the profiler is finalized and emits one CALL_END per recorded frame with an entry, then FINALIZE |
| SpxProfiler.Profiler.UnwindSkipped | src/spx_profiler.c:373-376 | finalize's call_ends above max_depth each consume a reading and read a frame call_start never wrote; their number is returned |
| SpxProfiler.Profiler.Unwind | src/spx_profiler.c:374-376 | one call_end of finalize: depth drops by one, an event exactly when the frame has an entry |
| SpxProfiler.ShallowProfileLosesOuterEnd | src/spx_profiler.c:220-292 | with max_depth 1, a call inside a recorded call leaves active false, so the recorded call's CALL_START is emitted but its CALL_END never is |
| SpxProfiler.ShallowFinalizeReadsUnwrittenFrame | src/spx_profiler.c:373-376 | with max_depth 1 and two calls open, finalize's call_end for the inner call reads a frame call_start never wrote |
| SpxProfilerTracer.NoiseVector | src/spx_profiler_tracer.c:445-460 | the calibrated noise is the average on wall time and CPU time and zero on every other metric |
| SpxProfilerTracer.TracingProfiler.constructor | src/spx_profiler_tracer.c:142-202 | spx_profiler_tracer_create: active, not calibrated, zero noise, max_depth clamped, empty stack and function table |
| SpxProfilerTracer.TracingProfiler.FuncTableReset | src/spx_profiler_tracer.c:551-566 | func_table_reset empties the table |
| SpxProfilerTracer.TracingProfiler.Calibrate | src/spx_profiler_tracer.c:420-466 | calibrate stores the two measured noises and leaves nothing behind: called and depth are 0 and the table is empty |
| SpxProfilerTracer.TracingProfiler.Collect | src/spx_profiler_tracer.c:236-239 | a reading becomes last, cum is the reading minus the first one and max grows to cover it |
| SpxProfilerTracer.TracingProfiler.CallStart | src/spx_profiler_tracer.c:204-279 | a finalized profiler ignores the call; otherwise the stored active decides whether the call is recorded (calibrating first on the first recorded call), depth grows by one and active becomes depth < max_depth |
| SpxProfilerTracer.TracingProfiler.RecordStart | src/spx_profiler_tracer.c:224-271 | a recorded start counts the call, sets first and max on the first one, fills the frame from GetEntry and emits CALL_START when it has an entry |
| SpxProfilerTracer.TracingProfiler.Observe | src/spx_profiler_tracer.c:224-241 | the reading of a recorded start; the first one also sets first and max |
| SpxProfilerTracer.TracingProfiler.StartFrame | src/spx_profiler_tracer.c:243-267 | the frame's entry is GetEntry of the table, start is the reading, children zero, no other frame changes |
| SpxProfilerTracer.TracingProfiler.CallEnd | src/spx_profiler_tracer.c:281-375 | a call_end at depth 0 is fatal (an error, state unchanged); otherwise depth drops, active becomes depth < max_depth, and an active frame with an entry is charged as in the first profiler and emits CALL_END |
| SpxProfilerTracer.TracingProfiler.EndFrame | src/spx_profiler_tracer.c:300-368 | the entry's stats grow as StatsAfter of the ended call, the frames below become Accounted and the event carries inc and exc |
| SpxProfilerTracer.TracingProfiler.Finalize | src/spx_profiler_tracer.c:377-394 | every open frame is ended; frames at or above max_depth yield nothing, every recorded frame with an entry yields CALL_END, then FINALIZE |
| SpxProfilerTracer.TracingProfiler.Unwind | src/spx_profiler_tracer.c:385-387 | one call_end of finalize: an event exactly when the frame is below max_depth and has an entry |
| SpxProfilerTracer.ShallowTraceKeepsOuterEnd | src/spx_profiler_tracer.c:276-299 | with max_depth 1, a call inside a recorded call is skipped and the recorded call's CALL_START and CALL_END are both emitted |
| SpxProfilerSampler.ReplayAppend | src/spx_profiler_sampler.c:185-211 | replaying two batches of calls to the sampled profiler is replaying the first, then the second from where it left the stack |
| SpxProfilerSampler.ReplayEnds | src/spx_profiler_sampler.c:187-191 | n call_ends pop the top n frames |
| SpxProfilerSampler.ReplayStarts | src/spx_profiler_sampler.c:195-197 | call_starts push the functions in order |
| SpxProfilerSampler.CommonTop | src/spx_profiler_sampler.c:158-181 | the common stack top is the longest prefix on which the two stacks' hash codes agree |
| SpxProfilerSampler.ReplayDifference | src/spx_profiler_sampler.c:185-197 | ending the previous frames above the common top and starting the current ones leaves the kept prefix plus the current frames above it |
| SpxProfilerSampler.SampleReplay | src/spx_profiler_sampler.c:150-212 | a sample moves the sampled profiler's stack to the mirror of the current stack, less its top after a call_end |
| SpxProfilerSampler.MirrorHashes | src/spx_profiler_sampler.c:150-212 | that mirror agrees with the current stack on every frame's hash code |
| SpxProfilerSampler.SameStackSample | src/spx_profiler_sampler.c:158-211 | a sample between identical stacks issues nothing but the ending frame's call_end |
| SpxProfilerSampler.SampleKeepsMirror | src/spx_profiler_sampler.c:150-212 | after every sample the whole history of calls replays to a stack that mirrors the new previous stack |
| SpxProfilerSampler.CommonTopUnique | src/spx_profiler_sampler.c:159-181 | the index where the scan stops is CommonTop |
| SpxProfilerSampler.SamplingProfiler.constructor | src/spx_profiler_sampler.c:74-96 | ready is set, both stacks are empty, nothing has been sent to the sampled profiler |
| SpxProfilerSampler.SamplingProfiler.CallStart | src/spx_profiler_sampler.c:127-139 | fatal exactly when the current stack is full; otherwise the function is pushed and a sample is taken if the heartbeat is ready |
| SpxProfilerSampler.SamplingProfiler.CallEnd | src/spx_profiler_sampler.c:141-148 | a sample is taken (replaying this end too), then the current stack loses its top |
| SpxProfilerSampler.SamplingProfiler.HandleSample | src/spx_profiler_sampler.c:150-156 | without ready nothing happens; with it ready is cleared and a sample is taken |
| SpxProfilerSampler.SamplingProfiler.Resample | src/spx_profiler_sampler.c:158-211 | the sample issues exactly SampleCalls and leaves previous equal to current, less its top after a call_end |
| SpxProfilerSampler.SamplingProfiler.IssueDifference | src/spx_profiler_sampler.c:158-197 | issues the ends above the common top and the starts of the current frames above it |
| SpxProfilerSampler.SamplingProfiler.CommonTopScan | src/spx_profiler_sampler.c:158-181 | the scan returns CommonTop of the two stacks |
| SpxProfilerSampler.SamplingProfiler.EndAbove | src/spx_profiler_sampler.c:187-191 | one call_end per previous frame above the common top |
| SpxProfilerSampler.SamplingProfiler.StartAbove | src/spx_profiler_sampler.c:195-197 | one call_start per current frame above the common top, bottom up |
| SpxProfilerSampler.SamplingProfiler.CopyCurrent | src/spx_profiler_sampler.c:201-205 | previous becomes a copy of current |
| SpxProfilerSampler.SamplingProfiler.Finalize | src/spx_profiler_sampler.c:214-219 | finalize is passed on to the sampled profiler |
| SpxProfilerSampler.Create | src/spx_profiler_sampler.c:61-104 | creation is fatal exactly for a sampling period below 1 microsecond |
| SpxBucket.EmptyBucket | src/spx_hset.c:25-32 | bucket_init: four free slots |
| SpxBucket.FirstHitSpec | src/spx_hset.c:52-75 | the scan stops at the first free or matching slot from p on, or nowhere when there is none |
| SpxBucket.BucketGetEntry | src/spx_hset.c:44-97 | the recursive scan over the bucket chain, chaining a fresh overflow bucket when needed, computes ChainGet |
| SpxBucket.ChainGet | src/spx_hset.c:44-97 | bucket_get_entry changes the chain only when it claims a slot for a new item, and names a slot inside the chain |
| SpxBucket.ChainGetChanges | src/spx_hset.c:54-88 | a claimed slot was free, now holds the item, and is the only slot that changed |
| SpxBucket.ChainGetOk | src/spx_hset.c:54-88 | a lookup keeps the taken slots a prefix of the chain and every overflow bucket started |
| SpxBucket.ChainGetDistinct | src/spx_hset.c:54-74 | an item is stored only after every earlier item it differs from, so items that are pairwise apart stay so |
| SpxBucket.ChainGetAgain | src/spx_hset.c:68-74 | a lookup that returned a slot finds the same slot again, unchanged and not new |
| SpxBucket.ExistingNeverInserts | src/spx_hset.c:55-57 | a lookup for an existing entry never changes the chain |
| SpxBucket.ExistingFindsMatch | src/spx_hset.c:52-80 | a lookup for an existing entry returns a matching taken slot, and fails exactly when no taken slot matches |
| SpxHset.HSet.constructor | src/spx_hset.c:99-128 | spx_hset_create: every bucket starts empty |
| SpxHset.HSet.Reset | src/spx_hset.c:130-137 | spx_hset_reset: every bucket is back to the empty state |
| SpxHset.HSet.GetEntry | src/spx_hset.c:150-162 | spx_hset_get_entry performs bucket_get_entry in the value's bucket, claiming a slot when no equal value is there; other buckets are untouched |
| SpxHset.HSet.GetExistingEntry | src/spx_hset.c:164-175 | spx_hset_get_existing_entry returns an equal value's entry, or none, and never inserts |
| SpxHset.HSet.EntrySetValue | src/spx_hset.c:177-189 | the value is replaced, reporting success, only when it compares equal to the one held; otherwise nothing changes |
| SpxHset.GetEntryTwice | src/spx_hset.c:150-162 | get_entry twice with the same value returns the same entry, not new the second time, and changes nothing |
| SpxHset.GetEntryKeepsDistinct | src/spx_hset.c:150-162 | no value of a chain compares equal to another one |
| SpxHmap.HMap.constructor | src/spx_hmap.c:118-147 | spx_hmap_create: every bucket starts empty |
| SpxHmap.HMap.Reset | src/spx_hmap.c:149-156 | spx_hmap_reset: every bucket is back to the empty state |
| SpxHmap.HMap.EnsureEntry | src/spx_hmap.c:169-177 | the entry of an equal key, or a claimed slot holding the key and no value yet, reported as new |
| SpxHmap.HMap.GetValue | src/spx_hmap.c:179-194 | the value of an equal key's entry, none without one; it never inserts |
| SpxHmap.HMap.SetEntryKey | src/spx_hmap.c:196-205 | the key is replaced, reporting success, only when it compares equal to the one held; the value is kept |
| SpxHmap.HMap.EntrySetValue | src/spx_hmap.c:207-210 | the entry's value is set; no other slot changes |
| SpxHmap.EnsureSetGet | src/spx_hmap.c:169-210 | ensure_entry, entry_set_value, then get_value of the same key returns the value set |
| SpxHmap.GetValueAbsent | src/spx_hmap.c:179-194 | get_value of a key no taken slot matches is none |
| SpxHmap.SetItem | src/spx_hmap.c:207-210 | setting an entry's value changes that slot only and keeps the chain well formed |
| SpxStrBuilder.RevDigits | src/spx_str_builder.c:186-195 | the digits the append_long loop writes are empty exactly for 0 |
| SpxStrBuilder.RevDigitsReversed | src/spx_str_builder.c:186-216 | the digits written least significant first, reversed in place, are the decimal form of the number |
| SpxStrBuilder.ScaledStep | src/spx_str_builder.c:109-139 | one turn of the append_double digit loop emits one digit (or skips a fractional zero) and then '.' after the nb_dec-th digit |
| SpxStrBuilder.ScaledMeaning | src/spx_str_builder.c:96-163 | the text append_double writes for a positive scaled value: the intended text when it has at least nb_dec digits, otherwise its digits without trailing zeros and without '.' |
| SpxStrBuilder.ScaledLosesScale | src/spx_str_builder.c:120-139 | as written, 0.05 with two decimals is written "5", which reads back as 5.00 |
| SpxStrBuilder.ScaledExamples | src/spx_str_builder.c:109-139 | as written, 0.5 with two decimals is ".5" and a value that rounds to 0 with four decimals is the empty text |
| SpxStrBuilder.FixedExamples | src/spx_str_builder.c:83-164 | the intended texts of those two values are ".05" and "0" |
| SpxStrBuilder.FixedRoundTrip | src/spx_str_builder.c:83-164 | the intended text of a scaled value reads back as that value |
| SpxStrBuilder.FixedSignedRead | src/spx_str_builder.c:103-149 | the intended text of a scaled value of either sign is its sign followed by a text that reads back as its magnitude |
| SpxStrBuilder.Truncated | src/spx_str_builder.c:102 | C's double-to-long conversion truncates toward zero |
| SpxStrBuilder.IntCast | spx_reporter_cg.c:179 | C's (int) cast of a double truncates toward zero where the result fits 32 bits; elsewhere the model takes x86-64's INT_MIN |
| SpxStrBuilder.ScaledAsWrittenNearest | src/spx_str_builder.c:96-102 | for d >= 0, d * 10^nb_dec + 0.5 truncated is d * 10^nb_dec rounded to the nearest integer |
| SpxStrBuilder.NegativeRoundsUp | src/spx_str_builder.c:102-106 | for d < 0 the same expression is off: -0.054 with two decimals scales to -4 |
| SpxStrBuilder.RoundedNearest | src/spx_str_builder.c:102 | the intended scaled value is the nearest integer, halves going away from zero |
| SpxStrBuilder.NegativeRoundsNearest | src/spx_str_builder.c:102 | the intended scaled value of -0.054 with two decimals is -5 |
| SpxStrBuilder.StrBuilder.constructor | src/spx_str_builder.c:31-49 | spx_str_builder_create: a buffer of capacity + 1 chars holding the empty string |
| SpxStrBuilder.StrBuilder.Reset | src/spx_str_builder.c:57-61 | spx_str_builder_reset: the content is empty again |
| SpxStrBuilder.StrBuilder.Remaining | src/spx_str_builder.c:73-76 | size plus remaining is the capacity |
| SpxStrBuilder.StrBuilder.AppendChar | src/spx_str_builder.c:244-254 | one char appended and 1 returned, or nothing and 0 when full |
| SpxStrBuilder.StrBuilder.AppendStr | src/spx_str_builder.c:223-242 | the whole C string appended and its length returned, or, when it does not fit, the prefix that fits, a full builder and 0 |
| SpxStrBuilder.StrBuilder.AppendLong | src/spx_str_builder.c:166-221 | the decimal form of l appended and its length returned when it fits, otherwise nothing and 0 |
| SpxStrBuilder.StrBuilder.WriteDigits | src/spx_str_builder.c:185-195 | the digit loop writes RevDigits after the content, or fails with the terminator restored exactly when they do not fit |
| SpxStrBuilder.StrBuilder.Finish | src/spx_str_builder.c:197-220 | the optional '-', the terminator and the in-place reversal: the content grows by the sign and the reversed digits, or nothing when '-' does not fit |
| SpxStrBuilder.StrBuilder.AppendScaled | src/spx_str_builder.c:85-163 | from the scaled value on: "0" for a zero double, else the as-written text when it fits, else nothing and 0 |
| SpxStrBuilder.StrBuilder.AppendDouble | src/spx_str_builder.c:83-164 | spx_str_builder_append_double as written appends DoubleText when it fits, otherwise nothing |
| SpxStrBuilder.StrBuilder.AppendFixed | src/spx_str_builder.c:83-164 | append_double as intended appends the rounded value with nb_dec decimals when it fits, otherwise nothing |
| SpxStrBuilder.StrBuilder.WriteScaled | src/spx_str_builder.c:108-139 | the append_double digit loop writes RevScaled after the content, or fails with the terminator restored exactly when it does not fit |
| SpxStrBuilder.ReverseSlice | src/spx_str_builder.c:153-159 | the in-place loop leaves the slice reversed and everything outside it unchanged |
| SpxStrBuilder.Swap | src/spx_str_builder.c:156-158 | the three XORs exchange two chars and change nothing else |
| Decimal.NatToStringValue | src/spx_str_builder.c:186-195 | the decimal digits of n read back as n |
| Decimal.IntToStringRoundTrip | src/spx_str_builder.c:175-205 | the decimal form of an integer, '-' included, parses back to that integer |
| Decimal.IntToStringInjective | src/spx_str_builder.c:175-205 | distinct integers are written differently |
| CStrings.CStr | src/spx_str_builder.c:227-237 | the chars a C string loop reads: a NUL-free prefix of the buffer, ended by a NUL or the buffer's end |
| SpxUtils.EscapeChar | src/spx_utils.c:16-20 | a char is written with a backslash before it exactly when it is a backslash or, for this escape rule, a double quote |
| SpxUtils.ConsumedFrom | src/spx_utils.c:15-22 | the loop consumes chars until the source ends or the output reaches the stop length |
| SpxUtils.JsonEscape | src/spx_utils.c:6-27 | spx_utils_json_escape leaves in dst the escaped prefix of src followed by a NUL, and an empty string when limit < 3 |
| SpxUtils.EscapeInto | src/spx_utils.c:8-24 | the escape loop with its NUL, for either escape rule |
| SpxUtils.EscapeChars | src/spx_utils.c:14-22 | the copy loop writes the escape of the chars it consumes, stopping at the source's end or at limit - 2 output chars |
| SpxUtils.EscapedPrefixBound | src/spx_utils.c:14-24 | the output before the NUL is at most limit - 1 chars, so it fits the buffer, and is the escape of a whole prefix of src |
| SpxUtils.EscapedAppend | src/spx_utils.c:15-22 | escaping is char by char: the escape of a concatenation is the concatenation of the escapes |
| SpxUtils.UnescapeEscaped | src/spx_utils.c:16-20 | unescaping an escaped string gives it back |
| SpxUtils.EscapedPrefixRoundTrip | src/spx_utils.c:6-27 | unescaping what json_escape writes gives back the consumed prefix of src, all of src when it fit |
| SpxUtils.EscapedWithoutQuotes | src/spx_utils.c:16 | without a double quote in the text, the two escape rules agree |
| SpxUtils.EmptyAffixes | src/spx_utils.c:29-48 | every string starts and ends with the empty string and with itself |
| SpxUtils.EndsWithReversed | src/spx_utils.c:34-48 | str_ends_with is str_starts_with on the reversed C strings |
| SpxUtils.AffixesOfConcat | src/spx_utils.c:29-48 | a + b starts with a and ends with b |
| SpxUtils.Truncate | src/spx_utils.h:4-28 | a token is the segment cut to the buffer's room, a prefix of it, and the whole segment when it fits |
| SpxUtils.TokensAt | src/spx_utils.h:4-28 | token k is segment k cut to size - 1 chars |
| SpxUtils.Tokenize | src/spx_utils.h:4-28 | SPX_UTILS_TOKENIZE_STRING hands its block the delimiter-separated segments of the C string, in order, each cut to size - 1 chars |
| SpxUtils.ScanTokens | src/spx_utils.h:10-27 | the macro's loop over the chars yields the tokens of the split string |
| SpxUtils.ScanStep | src/spx_utils.h:10-27 | at a delimiter the token is handed on and the buffer restarts; any other char extends it while there is room |
| SpxUtils.SplitCount | src/spx_utils.h:4-28 | the block runs once more than there are delimiters |
| SpxUtils.SplitJoin | src/spx_utils.h:4-28 | joining the segments with the delimiter gives the string back |
| SpxUtils.JoinSplit | src/spx_utils.h:4-28 | splitting the join of delimiter-free segments gives them back |
| SpxUtils.SplitSegments | src/spx_utils.h:4-28 | no segment holds the delimiter |
| SpxUtils.TokensRebuild | src/spx_utils.h:4-28 | when no segment was cut, joining the tokens with the delimiter rebuilds the input |
| SpxConfig.SkipSpaces | src/spx_config.c:147 | atoi's leading white space: a suffix of the text not starting with a space |
| SpxConfig.AtoiOfRendered | src/spx_config.c:146-148 | a non-negative int written in decimal and read by atoi into a size_t is that int |
| SpxConfig.NegativeDepthWraps | src/spx_config.c:146-148 | SPX_DEPTH=-1 stored into the size_t max_depth wraps to 2^64 - 1 |
| SpxConfig.FlagExamples | src/spx_config.c:134-136 | a boolean setting is true exactly when its value's first char is '1': "1" and "1abc" are true; "", "0", "true" and "yes" are false |
| SpxConfig.OutputChoice | src/spx_config.c:163-173 | "fp", "cg", "gte" and "trace" select their output; any other value keeps the current one |
| SpxConfig.Marked | src/spx_config.c:150-161 | SPX_METRICS yields one flag per metric |
| SpxConfig.MarkedNames | src/spx_config.c:150-161 | after SPX_METRICS exactly the metrics some token names by short name are on, whatever was on before |
| SpxConfig.UnknownFocusKept | src/spx_config.c:179-184 | an SPX_FP_FOCUS naming no metric keeps the focus metric as it was |
| SpxConfig.Applied | src/spx_config.c:132-205 | a source's answers keep one flag per metric and a focus that names a metric |
| SpxConfig.ApplyNothing | src/spx_config.c:132-205 | a source that answers nothing leaves every setting as it is |
| SpxConfig.LaterSourceWins | src/spx_config.c:48-74 | a later source's SPX_ENABLED and SPX_METRICS override an earlier source's; the earlier answer shows only when the later one is absent |
| SpxConfig.Recognised | src/spx_config.c:48-70 | the sources read are the tags before the first unrecognised one |
| SpxConfig.ApplyAll | src/spx_config.c:48-74 | applying the sources in turn keeps one flag per metric and a focus that names a metric |
| SpxConfig.EnabledAnswer | src/spx_config.c:115-130 | source_data_get asks the source for SPX_ENABLED (and so on for each of the thirteen parameters) |
| SpxConfig.ReadCollectsFocus | src/spx_config.c:108-113 | after spx_config_read, flat-profile output always has its focus metric enabled |
| SpxConfig.ReadStopsAtUnknown | src/spx_config.c:48-70 | nothing after an unrecognised source tag is read |
| SpxConfig.ReadOne | src/spx_config.c:39-79 | reading one source is the defaults, its answers, then the fix-up |
| SpxConfig.ReadTwo | src/spx_config.c:39-79 | reading two sources applies the first's answers, then the second's, then the fix-up |
| SpxConfig.Config.constructor | src/spx_config.c:81-106 | the settings start at the defaults |
| SpxConfig.Config.Init | src/spx_config.c:81-106 | init_config: disabled, no key, no builtins, depth 0, only wall time and ZE memory on, flat profile focused on wall time, limit 10 |
| SpxConfig.Config.ClearMetrics | src/spx_config.c:151-153 | every metric is off |
| SpxConfig.Config.SetMetrics | src/spx_config.c:150-161 | the metric flags become exactly those the comma-separated short names mark |
| SpxConfig.Config.Apply | src/spx_config.c:132-205 | source_data_to_config changes the settings as Applied says, field by field in the source's order |
| SpxConfig.Config.Fix | src/spx_config.c:108-113 | fix_config turns the focus metric on for flat-profile output |
| SpxConfig.Config.Read | src/spx_config.c:39-79 | spx_config_read leaves the settings ReadSpec computes from the sources |
| SpxMetric.ShortNameFrom | src/spx_metric.c:69-75 | the search from position i on answers a metric at or after i |
| SpxMetric.ShortNameFromFirst | src/spx_metric.c:69-75 | the search finds the first metric with that short name, and nothing only when there is none |
| SpxMetric.GetByShortName | src/spx_metric.c:67-76 | spx_metric_get_by_short_name returns a metric whose short name is the argument, and SPX_METRIC_NONE exactly when no metric has it |
| SpxMetric.ShortNamesDistinct | src/spx_metric.c:14-65 | the short names of the table are pairwise distinct |
| SpxMetric.ShortNameResolves | src/spx_metric.c:67-76 | every metric's short name resolves to that metric |
| SpxMetric.ShortNameLetters | src/spx_metric.c:14-65 | short names are two or three lower-case letters |
| SpxMetric.NamePrintable | src/spx_metric.c:14-65 | metric names are printable ASCII |
| SpxMetric.RawValues | src/spx_metric.c:127-191 | one raw value per metric |
| SpxMetric.CollectRawValues | src/spx_metric.c:127-191 | collect_raw_values leaves every metric's value as RawValue states it |
| SpxMetric.FillGroups | src/spx_metric.c:157-190 | each group whose flag the first loop raised is read |
| SpxMetric.FillZend | src/spx_metric.c:166-180 | each enabled Zend engine metric is read and nothing else changes |
| SpxMetric.DisabledReadsZero | src/spx_metric.c:131-164 | a disabled metric reads 0 unless an enabled metric of its clock or I/O group makes it read |
| SpxMetric.DerivedMetrics | src/spx_metric.c:157-190 | idle time is wall minus CPU time and I/O bytes is read plus written bytes, whenever their group is read |
| SpxMetric.MetricCollector.constructor | src/spx_metric.c:86-101 | spx_metric_collector_create: last holds the first reading and ref equals it |
| SpxMetric.MetricCollector.Collect | src/spx_metric.c:108-115 | last becomes the new reading and the values are last minus ref |
| SpxMetric.MetricCollector.NoiseBarrier | src/spx_metric.c:117-125 | ref moves by what the raw values gained since last; last is unchanged |
| SpxMetric.CollectAtCreation | src/spx_metric.c:86-115 | a collect at the reading of creation yields zeros |
| SpxMetric.NoiseBarrierHidesInterval | src/spx_metric.c:108-125 | after a barrier, a later collect yields what was collected before plus only what was gained since the barrier: the interval the barrier covers is hidden |
| SpxSession.CheckAccess | src/php_spx.c:228-283 | check_access grants exactly when Granted holds: the CLI always; otherwise HTTP enabled, both keys non-empty and equal, a non-empty ip variable and ip, a non-empty whitelist with a token equal to the ip |
| SpxSession.ScanWhitelist | src/php_spx.c:274-282 | the whitelist scan finds the ip exactly when it is one of the whitelist's tokens |
| SpxSession.DeniedUnlessAdmissible | src/php_spx.c:237-272 | outside the CLI, a failed check denies access whatever the whitelist holds |
| SpxSession.ListedIpGranted | src/php_spx.c:237-279 | an admissible request whose ip is an entry of the whitelist, of at most 31 chars, is granted |
| SpxSession.LongIpDenied | src/php_spx.c:274-282 | an ip longer than 31 chars is never granted, since each whitelist token is cut to 31 chars |
| SpxSession.OutputFileName | src/php_spx.c:535-593 | generate_output_file_name writes at most 511 chars, the size of its buffer less the NUL |
| SpxSession.CompressedNameEndsWith | src/php_spx.c:344-348 | init's compression test is "ends with .gz and is longer than 3 chars": ".gz" alone is not compressed, "a.gz" is |
| SpxSession.NameParts | src/php_spx.c:541-570 | the fixed parts of a generated name: the tail ends in ".gz" exactly for the outputs that ask for compression |
| SpxSession.GeneratedNameCompressed | src/php_spx.c:320-351 | a generated name is written compressed exactly for callgrind, trace events and trace |
| SpxSession.GeneratedNameHead | src/php_spx.c:572-592 | with a 63-char date and rand() below 2^31, the generated name is never cut by the buffer |
| SpxSession.LastIndexOf | src/php_spx.c:500-501 | strrchr: the position of the last occurrence, none when there is none |
| SpxSession.DispositionNameAgrees | src/php_spx.c:500-501 | where finish's strrchr arithmetic is defined, its download name is the basename up to the last '.' |
| SpxSession.DispositionNameStem | src/php_spx.c:500-501 | the corrected download name drops exactly the last extension of the basename |
| SpxSession.SlashlessNameUndefined | src/php_spx.c:500 | an SPX_OUTPUT_FILE without '/' leaves the source's download name undefined |
| SpxSession.HeadersByOutput | src/php_spx.c:473-506 | text/plain for the flat profile and the trace; gzip encoding and a download named after the file for every output but the flat profile |
| SpxSession.Finished | src/php_spx.c:426-432 | finish counts every call |
| SpxSession.FinishRunsOnce | src/php_spx.c:426-436 | a second finish changes nothing but the counter |
| SpxSession.FinishResponds | src/php_spx.c:434-513 | the CLI gets no response; an HTTP client gets the headers and the report on the first finish with a profiler, and the profiler is gone afterwards |
| SpxSession.Context.constructor | src/php_spx.c:285-298 | a fresh context: nothing finished, no profiler, nothing written |
| SpxSession.Context.Init | src/php_spx.c:285-424 | init reads the settings from the environment for the CLI, else from headers then query string, then decides as Launched says whether to profile and where the report goes |
| SpxSession.Context.Start | src/php_spx.c:308-404 | init after the settings: no profiling unless enabled and granted; the configured or generated file, or standard output for a CLI flat profile |
| SpxSession.Context.Finish | src/php_spx.c:426-513 | finish changes the context as Finished says |
| SpxSession.ReadHttpAsWritten | src/php_spx.c:303-306 | the two reads for an HTTP request, each done by the resetting spx_config_read of src/spx_config.c:39-41 (a different version from php_spx.c), leave only the query string's settings |
| SpxSession.HeaderEnableLost | src/php_spx.c:303-306 | with the resetting read, SPX_ENABLED sent as a header alone does not enable profiling; read into one configuration it does |
| SpxSession.QueryStringOverridesHeader | src/php_spx.c:303-306 | read together, a header setting holds unless the query string answers for the same parameter, which then wins |
| SpxSession.Basename | src/php_spx.c:499 | the basename is what follows the last '/' and holds no '/' |
| SpxSession.DispositionName | src/php_spx.c:499-500 | the download name is a prefix of the basename and holds no '/' |
| SpxFmt.FormatValue | src/spx_fmt.c:44-78 | snprintf leaves fewer than size chars and no NUL before the end |
| SpxFmt.PrintValue | src/spx_fmt.c:80-95 | a printed value is at most 15 chars, the 16-char buffer less its NUL |
| SpxFmt.ScaledBelowThousand | src/spx_fmt.c:240-305 | below 10^12 a time, memory or quantity is shown as a number below 1000 of its unit |
| SpxFmt.ScaledAtLeastOne | src/spx_fmt.c:240-305 | once a unit above the base is chosen the number shown is at least 1, except memory, whose decimal thresholds and binary divisors show 1000 bytes as 0.98 KB |
| SpxFmt.KilobyteBelowOneUnit | src/spx_fmt.c:269-271 | 1000 bytes are shown with "%6.1fKB" as 1000/1024 |
| SpxFmt.SignSymmetric | src/spx_fmt.c:256-305 | memory and quantities are scaled by magnitude: a negative value gets the positive one's unit and its sign back |
| SpxFmt.NegativeTimeUnscaled | src/spx_fmt.c:240-254 | a negative time is never scaled and is shown as nanoseconds |
| SpxFmt.ScaledByUnit | src/spx_fmt.c:240-305 | the value shown times its unit's divisor is the value given |
| SpxFmt.UnitSteps | src/spx_fmt.c:240-305 | the divisors are 2^10, 2^20, 2^30 for memory and 10^3, 10^6, 10^9 otherwise |
| SpxFmt.Padded | src/spx_fmt.c:196-204 | "%-W.Ws" writes exactly W chars: the text cut to W, padded on the right |
| SpxFmt.CellsPlain | src/spx_fmt.c:160-214 | a row of cells without newline prints exactly one line |
| SpxFmt.SepPlain | src/spx_fmt.c:216-233 | a separator prints exactly one line |
| SpxFmt.CellAligned | src/spx_fmt.c:181-210 | a colourless cell takes as many chars as its part of the separator |
| SpxFmt.RowAligned | src/spx_fmt.c:160-233 | a row of colourless bounded cells is exactly as long as its separator |
| SpxFmt.StopsAtOpenCell | src/spx_fmt.c:181-185 | the cells after one of span 0 are never printed, in the row or its separator |
| SpxFmt.CellsTextAppend | src/spx_fmt.c:164-211 | bounded cells never stop the row |
| SpxFmt.UnitCellsWidth | src/spx_fmt.c:187-210 | colourless cells of span 1 take 11 chars each |
| SpxFmt.PrintDashes | src/spx_fmt.c:226-229 | the inner loop prints one "----------+" per column |
| SpxFmt.PrintCell | src/spx_fmt.c:165-210 | one turn of the print loop: the cell is printed; it ends the row exactly when its span is 0 |
| SpxFmt.PrintCellSep | src/spx_fmt.c:220-229 | one turn of the separator loop: it ends the row exactly when the span is 0 |
| SpxFmt.Row.constructor | src/spx_fmt.c:97-107 | spx_fmt_row_create: an empty row |
| SpxFmt.Row.AddNumberCellColoured | src/spx_fmt.c:140-158 | spx_fmt_row_add_ncellf appends a number cell, or fails with "ROW_MAX_CELLS exceeded" exactly when 16 cells are in use |
| SpxFmt.Row.AddNumberCell | src/spx_fmt.c:131-138 | the same, without colour |
| SpxFmt.Row.AddTextCell | src/spx_fmt.c:114-129 | spx_fmt_row_add_tcell appends a colourless text cell, or fails exactly when 16 cells are in use |
| SpxFmt.Row.Reset | src/spx_fmt.c:235-238 | the row is empty again |
| SpxFmt.Row.Print | src/spx_fmt.c:160-214 | spx_fmt_row_print writes Line of the row's cells |
| SpxFmt.Row.PrintSep | src/spx_fmt.c:216-233 | spx_fmt_row_print_sep writes SepLine of the row's cells |
| SpxReporting.PrintRow | src/spx_fmt.c:114-214 | a row printed cell by cell succeeds exactly when it has at most 16 cells, and then prints Line |
| SpxReporterFull.SnPrintf | src/spx_reporter_full.c:133-154 | snprintf keeps a prefix of the text shorter than the buffer, all of it when it fits |
| SpxReporterFull.FileNamesPaired | src/spx_reporter_full.c:127-155 | when they fit, the report and metadata names share "dir/key" and end in ".txt.gz" and ".json" |
| SpxReporterFull.ValueTexts | src/spx_reporter_full.c:301-302 | each metric value is written with four decimals |
| SpxReporterFull.Push | src/spx_reporter_full.c:292-305 | a string-builder append leaves the content unchanged or extended by the whole text |
| SpxReporterFull.PushAll | src/spx_reporter_full.c:292-305 | the appends never take the builder beyond its 8 KiB capacity |
| SpxReporterFull.AllPieces | src/spx_reporter_full.c:289-311 | one list of appends per buffered entry |
| SpxReporterFull.FlushStep | src/spx_reporter_full.c:289-311 | one entry of flush_buffer: its appends, then the builder printed and emptied once fewer than 128 chars remain |
| SpxReporterFull.PushAllFits | src/spx_reporter_full.c:292-305 | appends that fit all go in |
| SpxReporterFull.PushAllAppend | src/spx_reporter_full.c:292-305 | appends one after the other compose |
| SpxReporterFull.FlushPrintsLines | src/spx_reporter_full.c:284-318 | no line is lost or cut: when every line takes at most 128 chars, flush_buffer prints the entries' lines in buffer order |
| SpxReporterFull.FullReporter.constructor | src/spx_reporter_full.c:157-212 | spx_reporter_full_create: the two file names, an empty buffer and "[events]" printed |
| SpxReporterFull.FullReporter.Notify | src/spx_reporter_full.c:230-265 | full_notify counts call ends; buffers call events, LIGHT while below capacity; otherwise flushes the buffer, finalizes on FINALIZE and returns HEAVY |
| SpxReporterFull.FullReporter.Drain | src/spx_reporter_full.c:258-264 | the HEAVY path: the buffer flushed, then FINALIZE finalized |
| SpxReporterFull.FullReporter.Store | src/spx_reporter_full.c:245-251 | the event's entry is put in the next slot of the buffer |
| SpxReporterFull.FullReporter.Flush | src/spx_reporter_full.c:284-318 | flush_buffer prints FlushText of the buffered entries and empties the buffer |
| SpxReporterFull.FullReporter.AppendEntry | src/spx_reporter_full.c:290-305 | the appends for one entry: index, ' ', start flag, the values, '\n' |
| SpxReporterFull.FullReporter.AppendValues | src/spx_reporter_full.c:296-303 | ' ' and the value for each enabled metric, in metric order |
| SpxReporterFull.FullReporter.AppendValue | src/spx_reporter_full.c:301-302 | ' ' and one value, each all or nothing |
| SpxReporterFull.FullReporter.Finalize | src/spx_reporter_full.c:320-346 | finalize prints "[functions]" and one "class::func" line per function, and fills the metadata: wall time in ms, peak memory, function count, enabled metrics |
| SpxReporting.QualifiedName | src/spx_reporter_full.c:328-334 | "%s%s%s" of the two names: each cut at its first NUL, "::" between them when the class part is not empty; with no NUL, "class::func" or "func" |
| SpxReporterFp.KeyOf | src/spx_reporter_fp.c:130-148 | entry_cmp_r ranks by the focus metric's inclusive then exclusive value when focused on inclusive costs, the other way round otherwise |
| SpxReporterFp.SortMetric | spx_reporter_fp.c:144-232 | get_sort_func of the root copy: the focus metric, and wall time for any focus it has no case for |
| SpxReporterFp.CmpAntisymmetric | src/spx_reporter_fp.c:150-154 | swapping the entries negates a positive comparison, and any comparison whose differences fit an int |
| SpxReporterFp.CmpRanks | src/spx_reporter_fp.c:150-154 | a positive comparison never ranks against the exact order; where the differences fit an int no comparison does, and on whole values it is the exact order |
| SpxReporterFp.WideGapMisranks | src/spx_reporter_fp.c:150-154 | a difference of 2^31 casts to INT_MIN, so the entry above compares as ranking below |
| SpxReporterFp.NotBeatsTransitive | src/spx_reporter_fp.c:130-155 | the exact order is a strict weak order |
| SpxReporterFp.RootOrderAgrees | spx_reporter_fp.c:113-142 | the root copy's comparators read one value and agree with entry_cmp_r wherever that value differs |
| SpxReporterFp.FirstBelow | src/spx_reporter_fp.c:176-182 | the inner loop stops at the first kept slot whose entry ranks below the scanned one, or at none |
| SpxReporterFp.SelectedAsWritten | src/spx_reporter_fp.c:168-183 | the selection as written keeps limit distinct entries, all scanned |
| SpxReporterFp.MissesSecondBest | src/spx_reporter_fp.c:173-183 | with keys 2, 1, 3 and two slots the loop as written drops the key-2 entry and keeps the key-1 entry |
| SpxReporterFp.WeakestRanksLowest | src/spx_reporter_fp.c:173-183 | the slot the corrected loop gives up holds an entry ranking above no kept entry |
| SpxReporterFp.SelectedIsTop | src/spx_reporter_fp.c:168-183 | the corrected selection keeps limit distinct entries and no entry left out ranks above a kept one |
| SpxReporterFp.OfferKeepsTop | src/spx_reporter_fp.c:173-183 | one offer keeps the best entries among those scanned |
| SpxReporterFp.InsertDescending | src/spx_reporter_fp.c:192-197 | insertion keeps the kept entries in entry_cmp_r order |
| SpxReporterFp.Ordered | src/spx_reporter_fp.c:192-197 | the qsort of the kept entries: a permutation of them in descending entry_cmp_r order |
| SpxReporterFp.Label | src/spx_reporter_fp.c:202 | "  %-20s: " pads a label to 20 chars and never cuts it |
| SpxReporterFp.FuncName | src/spx_reporter_fp.c:309-318 | the function name is cut to the 255 chars the buffer holds |
| SpxReporterFp.Keys | src/spx_reporter_fp.c:130-155 | every function table entry gets the key of the reporter's comparator |
| SpxReporterFp.Shown | src/spx_reporter_fp.c:163-197 | the report shows min(limit, size) entries of the function table: the as-written selection, in entry_cmp_r order |
| SpxReporterFp.ShownMissesSecondBest | src/spx_reporter_fp.c:163-197 | keys 2, 1, 3 with a limit of 2: the report shows the entries of keys 3 and 1 |
| SpxReporterFp.MaxLinesCounted | src/spx_reporter_fp.c:226-240 | one line per enabled metric |
| SpxReporterFp.GlobalStatsCounted | src/spx_reporter_fp.c:199-243 | the global stats take 11 lines plus one per enabled metric |
| SpxReporterFp.TableHeadCounted | src/spx_reporter_fp.c:245-283 | the table head takes 3 lines |
| SpxReporterFp.RowCounted | src/spx_reporter_fp.c:285-324 | each row takes one line when the function name holds no newline |
| SpxReporterFp.RowsCounted | src/spx_reporter_fp.c:285-326 | the rows take one line per shown entry |
| SpxReporterFp.ReportLinesCounted | src/spx_reporter_fp.c:157-336 | the line count print_report returns is the number of lines its report takes |
| SpxReporterFp.RowMatchesColumns | src/spx_reporter_fp.c:258-307 | a row has as many cells as the column titles, of the same spans |
| SpxReporterFp.RowOverflow | src/spx_reporter_fp.c:258-320 | the table's rows fit spx_fmt's 16 cells exactly while at most seven metrics are enabled |
| SpxReporterFp.EightMetricsOverflow | src/spx_reporter_fp.c:258-278 | with eight metrics enabled the column row needs 18 cells |
| SpxReporterFp.ErasureMovesUp | src/spx_reporter_fp.c:93-99 | the erasure moves the cursor up once per line of the last report |
| SpxReporterFp.FillSlots | src/spx_reporter_fp.c:169-171 | slot i holds entry i |
| SpxReporterFp.SelectTopAsWritten | src/spx_reporter_fp.c:173-183 | the loop as written leaves SelectedAsWritten in the slots |
| SpxReporterFp.OfferFirstBelow | src/spx_reporter_fp.c:176-182 | the scanned entry replaces the first slot ranked below it |
| SpxReporterFp.SelectTop | src/spx_reporter_fp.c:173-183 | the corrected loop leaves Selected in the slots |
| SpxReporterFp.SelectStep | src/spx_reporter_fp.c:173-183 | one pass of the corrected loop offers one entry |
| SpxReporterFp.OfferWeakest | src/spx_reporter_fp.c:176-182 | the scanned entry replaces the weakest slot when it ranks above that entry |
| SpxReporterFp.WeakestSlot | src/spx_reporter_fp.c:176-182 | the scan finds the weakest slot |
| SpxReporterFp.FpReporter.constructor | src/spx_reporter_fp.c:31-67 | spx_reporter_fp_create: the settings stored, no report printed yet, limit slots allocated |
| SpxReporterFp.FpReporter.KeysOf | src/spx_reporter_fp.c:130-155 | one key per function table entry |
| SpxReporterFp.FpReporter.Notify | src/spx_reporter_fp.c:69-104 | fp_notify: LIGHT for a call start, and for a call end unless live and 70 ms have passed (size_t arithmetic); otherwise the last report erased, the new one printed, its line count kept, HEAVY |
| SpxReporterFp.FpReporter.Redraw | src/spx_reporter_fp.c:93-101 | the last report erased and the new one printed |
| SpxReporterFp.FpReporter.Erase | src/spx_reporter_fp.c:93-99 | the erasure of the last report |
| SpxReporterFp.FpReporter.PrintReport | src/spx_reporter_fp.c:157-336 | print_report prints Report and returns its line count |
| SpxReporterFp.FpReporter.SelectShown | src/spx_reporter_fp.c:163-197 | the two selection loops, as written, and the qsort leave Shown |
| SpxReporterFp.FpReporter.PrintRows | src/spx_reporter_fp.c:285-324 | one row per shown entry, in order |
| SpxReporterFp.EraseLines | src/spx_reporter_fp.c:94-98 | the erasure loop writes Erasure |
| SpxReporterFp.RowsText | src/spx_reporter_fp.c:285-324 | the last loop writes Rows |
| SpxReporting.EnabledFromComplete | src/spx_reporter_fp.c:226-240 | the metric loops visit every enabled metric, once each, in increasing order |
| SpxReporterGte.Timestamp | src/spx_reporter_gte.c:89 | the size_t cast of a non-negative wall time is its whole part |
| SpxReporterGte.EscapeLoopCStr | src/spx_reporter_gte.c:103 | the escape loop stops at the first NUL: it sees only the C string |
| SpxReporterGte.EscapeLoopStep | src/spx_reporter_gte.c:103-110 | one char of the loop writes the char and, for a backslash, a second one |
| SpxReporterGte.EscapeLoopConsumed | src/spx_reporter_gte.c:100-115 | the loop writes the escape of the chars it consumes while fewer than limit - 2 are written |
| SpxReporterGte.EscapedAgrees | src/spx_reporter_gte.c:100-115 | gte's json_escape writes what spx_utils_json_escape writes under the rule that leaves '"' alone, so unescaping gives back the consumed prefix of the name |
| SpxReporterGte.Objects | src/spx_reporter_gte.c:78-95 | one object per buffered entry |
| SpxReporterGte.ListedSnoc | src/spx_reporter_gte.c:81-94 | one more object follows the others, after "[" when it is the very first one and after "," otherwise |
| SpxReporterGte.ListedAppend | src/spx_reporter_gte.c:72-98 | printing the objects in chunks prints what one pass over all of them prints: the array opens once |
| SpxReporterGte.RecordsAppend | src/spx_reporter_gte.c:72-98 | what the flushes print chunk by chunk adds up to the records of all the entries |
| SpxReporterGte.RecordsLead | src/spx_reporter_gte.c:84 | the records start with "[\n" for the first flush and ",\n" for later ones |
| SpxReporterGte.NoCallsPrintsBracketOnly | src/spx_reporter_gte.c:63-67 | a profile without a call event prints a lone "]" |
| SpxReporterGte.GteReporter.constructor | src/spx_reporter_gte.c:26-43 | spx_reporter_gte_create: the first object to come, an empty buffer, nothing printed |
| SpxReporterGte.GteReporter.Notify | src/spx_reporter_gte.c:45-70 | gte_notify buffers a call event, LIGHT while below capacity; otherwise flushes, FINALIZE then prints "]", HEAVY; once closed the output is every entry's record and "]" |
| SpxReporterGte.GteReporter.Flush | src/spx_reporter_gte.c:72-98 | flush_buffer prints the records of the buffered entries and empties the buffer |
| SpxReporterGte.GteReporter.Print | src/spx_reporter_gte.c:78-95 | the loop prints one object per entry, the first one opening the array |
| SpxReporterGte.GteReporter.PrintObject | src/spx_reporter_gte.c:81-90 | the printf of one entry: its lead and its object |
| SpxReporterTrace.EntryOf | src/spx_reporter_trace.c:101-112 | a call event is buffered with its kind, callee, depth and cumulative costs, and its inclusive and exclusive costs for a call end |
| SpxReporterTrace.FunctionText | src/spx_reporter_trace.c:255-272 | the prefix right-aligned in depth + 1 columns and the name, cut to the 255 chars of the buffer |
| SpxReporterTrace.MetricsCellsShape | src/spx_reporter_trace.c:219-246 | a row has three one-column cells per enabled metric |
| SpxReporterTrace.TitleCellsShape | src/spx_reporter_trace.c:189-197 | the header's second row has three one-column titles per enabled metric |
| SpxReporterTrace.RowColumns | src/spx_reporter_trace.c:207-278 | a row: its metric cells, its depth, and the function name alone from the function column on |
| SpxReporterTrace.TitleColumns | src/spx_reporter_trace.c:189-204 | the header's second row prints "Function" from the same column |
| SpxReporterTrace.SameSpans | src/spx_reporter_trace.c:189-253 | a row and the header's second row have as many cells, of the same spans |
| SpxReporterTrace.ColumnsAligned | src/spx_reporter_trace.c:174-278 | every row lines up under the header, its function name starting where the header prints "Function" |
| SpxReporterTrace.RowsAppend | src/spx_reporter_trace.c:143-172 | buffering does not change the text: the rows of two chunks are the rows of both |
| SpxReporterTrace.RowOverflow | src/spx_reporter_trace.c:189-274 | the header and the rows fit spx_fmt's 16 cells exactly while at most four metrics are enabled |
| SpxReporterTrace.FiveMetricsOverflow | src/spx_reporter_trace.c:189-200 | with five metrics enabled the header's second row needs 17 cells |
| SpxReporterTrace.TraceReporter.constructor | src/spx_reporter_trace.c:69-95 | spx_reporter_trace_create: the given file name or "spx_trace.txt.gz", compressed exactly when it ends in ".gz", an empty buffer |
| SpxReporterTrace.TraceReporter.Notify | src/spx_reporter_trace.c:97-132 | trace_notify buffers a call event; the buffer is printed when full, at every event in safe mode and at the end, which also names the file on stderr |
| SpxReporterTrace.TraceReporter.Store | src/spx_reporter_trace.c:102-114 | the entry goes in the next free slot |
| SpxReporterTrace.TraceReporter.Flush | src/spx_reporter_trace.c:143-172 | flush_buffer prints the header before the first rows, then a row per entry, and empties the buffer |
| SpxReporterTrace.TraceReporter.PrintRows | src/spx_reporter_trace.c:151-169 | print_row for every buffered entry, in order |
| SpxReporterCg.EntryOf | spx_reporter_cg.c:82-90 | a call end is buffered as its caller, callee and both cost vectors, each sized to the metric table |
| SpxReporterCg.ShortNames | spx_reporter_cg.c:144-150 | one short name per enabled metric, in metric order |
| SpxReporterCg.EventNamesJoined | spx_reporter_cg.c:142-152 | the events list is the enabled metrics' short names, each followed by a blank |
| SpxReporterCg.EventsRoundTrip | spx_reporter_cg.c:125-153 | split at blanks, the events line gives one short name per enabled metric in metric order, each resolving back to its metric |
| SpxReporterCg.Costs | spx_reporter_cg.c:174-180 | the printed costs are the (int) casts of the enabled metrics' values: truncated toward zero where they fit an int, INT_MIN otherwise |
| SpxReporterCg.NumberStrings | spx_reporter_cg.c:172-179 | one %d rendering per number, in order |
| SpxReporterCg.BlankedJoined | spx_reporter_cg.c:172-180 | a number followed by " %d" per number is the numbers joined with blanks |
| SpxReporterCg.FieldsBlanked | spx_reporter_cg.c:174-180 | the cost fields are the blank-prefixed renderings of the costs |
| SpxReporterCg.CostLineJoined | spx_reporter_cg.c:172-182 | a cost line is the line number and the costs joined with blanks |
| SpxReporterCg.IntToStringPlain | spx_reporter_cg.c:172 | a %d rendering holds no blank |
| SpxReporterCg.CostLineSplit | spx_reporter_cg.c:172-182 | split at blanks, a cost line gives back exactly its number renderings |
| SpxReporterCg.NumberStringsParse | spx_reporter_cg.c:179 | each %d rendering parses back to its number |
| SpxReporterCg.CostLineRoundTrip | spx_reporter_cg.c:212-221 | a cost line read back gives the line number and then every cost, in the order printed |
| SpxReporterCg.CostsInMetricOrder | spx_reporter_cg.c:174-180 | the k-th printed exclusive cost is the cast of the k-th enabled metric's value |
| SpxReporterCg.CallsAppend | spx_reporter_cg.c:102-123 | buffering does not change the text: the records of two chunks are the records of their concatenation |
| SpxReporterCg.AllSizedAppend | spx_reporter_cg.c:83-90 | joining two well-sized buffers keeps every entry sized to the metric table |
| SpxReporterCg.CallsSnoc | spx_reporter_cg.c:111-120 | printing one more entry appends exactly its record |
| SpxReporterCg.CgReporter.constructor | spx_reporter_cg.c:61-72 | a new reporter has printed nothing, has an empty buffer and still owes the header |
| SpxReporterCg.CgReporter.Notify | spx_reporter_cg.c:74-100 | a call start is light and changes nothing; a call end is appended to the buffer and is light unless the buffer is now full; a full buffer or the end event flushes (header first if not yet printed) and is heavy |
| SpxReporterCg.CgReporter.Store | spx_reporter_cg.c:83-90 | the entry goes to the next free slot and the buffer grows by exactly that entry |
| SpxReporterCg.CgReporter.Flush | spx_reporter_cg.c:102-123 | the header is printed once, before the first records, then one record per buffered entry, and the buffer is emptied |
| SpxReporterCg.CgReporter.PrintCalls | spx_reporter_cg.c:110-120 | the output grows by the records of the buffered entries, in order |

## Left out

- Float32 typed arrays: `RecordArray.Conv` stores a `float32` field's value exactly. `Math.fround` rounding is not modelled, so 16777217 reads back unchanged.
- Failed allocations: `malloc` failure when chaining a new hash bucket (src/spx_hset.c:81-83, src/spx_hmap.c:101-103) is not modelled, so `SpxHmap.HMap.EnsureEntry` always finds or claims a slot. The tracer's "function table hash index failure" exit is therefore not reachable in the model.
- The allocation failures of the create functions (profilers, reporters, string builder, fmt row) are not modelled: creation always succeeds.
- SpxStrBuilder.StrBuilder.AppendLong: negating `LONG_MIN` overflows in C. Integers are unbounded here, so the model prints the true magnitude.
- WebUtils.TruncateFunctionName: counts characters, where JavaScript's `length` and `slice` count UTF-16 code units.
- The tracer's `spx_metric_collector_add_fixed_noise` after each recorded start and end (src/spx_profiler_tracer.c:273, src/spx_profiler_tracer.c:374) is not modelled. Collector readings are parameters.
- SpxProfilerSampler.Create: the `malloc` and `pthread_create` failures of the sampler are not modelled. The heartbeat thread is a `tick` parameter of each call.
- SpxProfilerSampler.SamplingProfiler.CallEnd: requires an open frame, which the source does not check for.
- MetricValues.Wt: wall time is taken to be the first metric, as the metric table orders it.
- SpxProfilerTypes.TableGetEntry: the profilers' function-table lookup is a scan of the entries by function and class name. The hset/hmap index is modelled on its own (SpxHset, SpxHmap) and not connected to the lookup. `hashCode` is a free field of a function, not computed from its names.
- CallRangeTrees.Plan: the recursion carries a fuel bound. `PlanFuelIndependent` and `BuildRootFuelIndependent` show the fuel does not matter once every call is longer than the range over 2^(k+1). For a profile with zero-length calls the bound is what stops the recursion (see Findings).
- CallRangeStats: `Range.sub` (the remaining ranges around a query range) is not in math.js. It is taken as a parameter `sub`.
- The asynchronous callbacks of `buildAsync` and its progress reports are not modelled. The build is one synchronous computation.
- SpxConfig: the variable argument list of `spx_config_read` is taken to end after its one source.
- SpxSession.Context.Init: src/php_spx.c:300-306 uses the API that src/spx_config.h:40-41 declares (`spx_config_init` once, then one source per `spx_config_read`). src/spx_config.c is from another version: it has no `spx_config_init` and resets the configuration on every read. Init follows php_spx.c: one configuration, reset once, with the header read and then the query string. `ReadHttpAsWritten` models the pairing with the resetting read.
- SpxFmt.Render: `printf` rendering of doubles (`%.2f` and the like) is a parameter `Render`.
- I/O: output streams are strings. Not modelled: gzip compression, file writes, `metadata_save`, the listing of data files, and the PHP output layer.
- The clock, `rand`, `isatty`, `getenv`, `$_SERVER` and `$_GET` are inputs to the operations that read them.
- SpxReporterFp.Ratio: a zero peak shows 0 where the C code divides by zero.
- SpxReporterFp.CmpRanks: entry_cmp_r returns a double difference as an `int`. C leaves the conversion undefined once the difference does not fit 32 bits. The model takes x86-64's INT_MIN (`SpxStrBuilder.IntCast`), and CmpRanks promises the exact order only where the differences fit; `WideGapMisranks` shows a gap of 2^31 ranked backwards. The same cast gives the printed costs of `SpxReporterCg.Costs` and `SpxReporterCg.CostsInMetricOrder`.
- SpxReporterFp.Shown: qsort's order among entries that entry_cmp_r ranks equal is unspecified. The model takes one such order, in which equal entries keep their order in `top_entries`, and its contract promises only the descending order and the multiset of the selection.
- SpxSession.Context.Start: the configured output file name is kept whole. The source strcpy's it into the 512-byte `output_file` (src/php_spx.c:45, src/php_spx.c:316-318), so a name of 512 characters or more overflows that buffer; the overflow is not modelled.
- CallRangeStats, MetricValuesLists.CostPoints and MetricValuesLists.CumCost: assets/web-ui/js/profileData.js reads `range.begin` and `range.end` (assets/web-ui/js/profileData.js:454-465, assets/web-ui/js/profileData.js:917-922) and calls `range.copy().intersect(...)` (assets/web-ui/js/profileData.js:946), while the Range of assets/web-ui/js/math.js:84-116 has fields `a` and `b` and a method `intersection`. As written those reads are `undefined` and the call throws. The model gives them their evident meaning: the two ends of the range and its intersection.
- SpxReporterTrace.TraceReporter.Notify: prints whole rows for any number of enabled metrics. The source dies once a row needs more than spx_fmt's 16 cells (five metrics or more; see Findings).
- SpxReporterFp.FpReporter.Notify: prints whole rows for any number of enabled metrics. The source dies once a row needs more than 16 cells (eight metrics or more; see Findings).
- SpxReporterFull.FullReporter.Notify: prints doubles with the corrected `append_double` (see Findings), not the as-written one.
- Signal handling, threads other than the sampler's heartbeat, and the PHP engine hooks of src/spx_php.c are not part of this model.

## Findings

| source | as written | input that shows it | evidently intended | confidence | as-written member | corrected member |
|---|---|---|---|---|---|---|
| src/spx_profiler.c:288-292 | call_end decrements depth but does not recompute `active`, which stays false after a call beyond max_depth | max_depth 1: start A, start B, end B, end A; A's CALL_START is emitted, its CALL_END never is | active is true again once depth is back below max_depth, as in the tracer | high, not executed | SpxProfiler.ShallowProfileLosesOuterEnd | SpxProfilerTracer.ShallowTraceKeepsOuterEnd |
| src/spx_profiler.c:373-376 | finalize forces active and ends every open frame, including frames call_start never wrote | max_depth 1 with two calls open at finish: the inner call's frame is read unwritten; beyond the stack capacity the read is out of bounds | frames at or above max_depth are popped without being read | high, not executed | SpxProfiler.ShallowFinalizeReadsUnwrittenFrame | SpxProfilerTracer.TracingProfiler.Finalize |
| assets/web-ui/js/profileData.js:798-801 | child lookup indexes a plain object by function name, so inherited properties count as children | a top-level function named toString: the lookup finds Object.prototype.toString and the walk throws | only names added as children are found | high, not executed | CallTrees.InheritedNameBreaksBuild | CallTrees.AddPath |
| assets/web-ui/js/profileData.js:996-1036 | a range holding at least 500 calls is halved, and every call contained in a half goes down into it | 500 calls at one instant t in the range [t, t]: the left half is [t, t] again and holds every call, so buildAsync recurses on the same arguments forever | a zero-length range is a leaf | high, not executed | CallRangeTrees.ZeroSpanCallsItself | CallRangeTrees.ZeroSpanIsLeaf |
| src/spx_str_builder.c:120-139 | the digit loop writes the '.' and leading zeros only when the integer has more digits than nb_dec | 0.05 with two decimals is written "5", which reads back as 5 | ".05", which reads back as the value | high, not executed | SpxStrBuilder.ScaledLosesScale | SpxStrBuilder.FixedRoundTrip |
| src/spx_str_builder.c:102-106 | the value is scaled with d * 10^nb_dec + 0.5 and truncated, for either sign | -0.054 with two decimals scales to -4 | rounding to nearest, giving -5 | medium, not executed | SpxStrBuilder.NegativeRoundsUp | SpxStrBuilder.RoundedNearest |
| src/php_spx.c:303-306 | spx_config_read is called once for the header and once for the query string; src/spx_config.c:39-41 starts each call by resetting the configuration. The two files come from different versions: php_spx.c:300 calls spx_config_init, which spx_config.c does not define, and src/spx_config.h:40-41 declares a one-source spx_config_read, so the reset may not exist where the two reads are used together | an SPX_ENABLED: 1 header and no query string: with the resetting read, profiling stays off | both sources read in one call, the query string overriding the header | low, not executed; holds only for the pairing of php_spx.c with this spx_config.c | SpxSession.HeaderEnableLost | SpxSession.QueryStringOverridesHeader |
| src/spx_reporter_fp.c:173-183 | a new entry replaces the first shown entry it beats, not the weakest | keys 2, 1, 3 with two slots: 3 replaces 2, leaving 3 and 1 | the new entry replaces the weakest shown entry, keeping the top two (3 and 2) | high, not executed | SpxReporterFp.MissesSecondBest | SpxReporterFp.SelectedIsTop |
| src/php_spx.c:500 | the download name is cut with strrchr(name, '/') + 1, with no check for NULL | an SPX_OUTPUT_FILE with no '/' in it: the address arithmetic starts from NULL | the whole name as its own basename | medium, not executed | SpxSession.SlashlessNameUndefined | SpxSession.DispositionNameStem |
| src/spx_reporter_trace.c:189-200 | the header's second row adds three cells (Cum., Inc., Exc.) per enabled metric to a row of at most 16 cells | five metrics enabled: the row needs 17 cells and the reporter dies | a row per metric count the metric table allows | medium, not executed | SpxReporterTrace.FiveMetricsOverflow | SpxReporterTrace.ColumnsAligned |
| src/spx_reporter_fp.c:258-278 | the column row adds two cells per enabled metric to a row of at most 16 cells | eight metrics enabled: the row needs 18 cells and the reporter dies | a row per metric count the metric table allows | medium, not executed | SpxReporterFp.EightMetricsOverflow | SpxReporterFp.RowMatchesColumns |
