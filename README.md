# MatchLib building blocks in Dafny

This project models the self-contained, checkable core of MatchLib, NVIDIA's library of synthesizable SystemC/C++ hardware components, together with the runtime-report script that ships with it. Each source file of that core becomes one Dafny module, in the form the C++ takes:

- **Stateful components are classes.** `FIFO`, the round-robin `Arbiter`, `ReorderBuf`, `mem_array_sep`/`mem_array_opt`, `ArbitratedCrossbar`, `Marshaller`/`BitUnion2`, `nv_scvector`, the scratchpads, the buffered ports and the serializers/deserializers update their registers and arrays in place. Each is a `class` with a `Valid()` invariant, and its methods are proved against specification functions over an abstract view (per-bank queue contents, memory contents, outstanding ids, packets pushed).
- **Combinational and template code is functions and lemmas.** This covers `crossbar`, `one_hot_to_bin`, `nbits`/`log2_*`/`next_pow2`/`get_slc`/`set_slc`/`leading_ones`/`lzd`, `TypeToBits`, the flit-id predicates, `Minmax`/`PriEnc`/`Concat` and the channel next-state functions. Where the C++ loops, the loop is kept as a method with invariants.
- **Bit vectors are `seq<bool>`**, least significant bit first. `NVUINTW(n)` is a sequence of length n. `ToNat`/`FromNat` give its value.
- **The runtime report (`bin/report_runtimes.py`) works on exact values.** Runtimes are exact decimals, and log files are given as lists of (design, lines).

The properties proved include:
- FIFO order per bank and `NumFilled + NumAvailable == FifoLen`;
- equality of the round-robin arbiter with the rotate-right reference arbiter over any request sequence;
- in-order release and distinct ids in the reorder buffer;
- read-after-write, masking and frame properties of the banked memories;
- delivery and per-lane behaviour of the arbitrated crossbar;
- marshalling, `TypeToBits` and `nv_scvector` round trips;
- the address split of the three scratchpads;
- the next-state behaviour of the channel buffers;
- serializer/deserializer round trips.

Verifying natural contracts exposed five discrepancies in the source, recorded under "## Findings". Each has a model of the code as written, a lemma exhibiting the input, and a corrected definition with the intended property proved. The rest of the model uses the corrected definitions, except the buffered deserializer class, which keeps the entry test as written and is the subject of that finding.

## Model

| member | source | states |
|---|---|---|
| ReportRuntimes.Lower | bin/report_runtimes.py:108 | `line.lower()` on ASCII text: the length is kept and each ASCII letter is lowered, position by position |
| ReportRuntimes.SpanSpec | bin/report_runtimes.py:77 | the run matched by `\s+` or `[\d.]+` from a position is maximal: every character in it belongs to the class and the next one does not |
| ReportRuntimes.SpanExact | bin/report_runtimes.py:77 | a maximal run from i to j is matched with length exactly j - i |
| ReportRuntimes.Search | bin/report_runtimes.py:77-78 | `re.search` finds the leftmost position at or after p where the pattern matches, and None only when it matches nowhere |
| ReportRuntimes.FirstDotCount | bin/report_runtimes.py:82 | the first dot of a token splits it, and the token has no dot exactly when none is found |
| ReportRuntimes.ParseDecimalValid | bin/report_runtimes.py:81-84 | `float()` accepts a token of digits and dots exactly when it has at most one dot and at least one digit; otherwise the ValueError gives None |
| ReportRuntimes.DigitsValueAppend | bin/report_runtimes.py:82 | appending a digit multiplies the value read by ten and adds the digit |
| ReportRuntimes.NatToDecimal | bin/report_runtimes.py:74 | a whole number written in decimal is a nonempty digit string |
| ReportRuntimes.NatToDecimalValue | bin/report_runtimes.py:82 | reading back the decimal digits of n gives n |
| ReportRuntimes.ParseDecimalPoint | bin/report_runtimes.py:82 | "I.F" with digit strings I and F reads as I + F / 10^|F| |
| ReportRuntimes.ParseDecimalNat | bin/report_runtimes.py:82 | a whole number reads back as itself |
| ReportRuntimes.ParseRuntimeFromLine | bin/report_runtimes.py:71-86 | when the pattern matches, the result is the leftmost match's token read as a number (None when `float()` rejects it); a runtime is always the token of some match, and a line where the pattern matches nowhere gives None |
| ReportRuntimes.LineEntry | bin/report_runtimes.py:105-111 | a line yields an entry only when it holds the marker, names its step (an expected step contained in the lowered line) and has a runtime, which is the line's parsed runtime |
| ReportRuntimes.StepRuntimes | bin/report_runtimes.py:100-112 | the map built from a log's lines has only expected steps as keys |
| ReportRuntimes.MatchOfRuns | bin/report_runtimes.py:77-78 | the pattern matches at p when "elapsed time" in any case is followed by runs of whitespace, number characters and whitespace, then "second" in any case; it captures the number run |
| ReportRuntimes.MatchOfParts | bin/report_runtimes.py:77-78 | "elapsed time" in any case, any nonempty whitespace runs and "second" or "seconds" in any case match and capture the token between them |
| ReportRuntimes.RuntimeOfParts | bin/report_runtimes.py:71-86 | a line whose first match has that general form yields its token read as a number |
| ReportRuntimes.RuntimeOfLine | bin/report_runtimes.py:71-86 | a line holding "elapsed time TOK seconds", with no earlier match, yields TOK read as a number |
| ReportRuntimes.MatchOfLine | bin/report_runtimes.py:77-78 | the pattern matches at the start of "elapsed time TOK seconds" and captures TOK |
| ReportRuntimes.DecimalRuntime | bin/report_runtimes.py:71-86 | "elapsed time I.F seconds" yields the value of I.F |
| ReportRuntimes.RuntimeExample | bin/report_runtimes.py:74 | the documented example "elapsed time 15.95 seconds" yields 15.95 |
| ReportRuntimes.MalformedTokens | bin/report_runtimes.py:81-84 | "1.2.3" and "." match the token class but give None |
| ReportRuntimes.NoRuntimeWithoutPattern | bin/report_runtimes.py:78-86 | a line without "elapsed time" in any case gives None |
| ReportRuntimes.FirstStep | bin/report_runtimes.py:107-112 | the step found is the first, in list order, contained in the lowered line, and None only when no step is |
| ReportRuntimes.ScanLine | bin/report_runtimes.py:105-112 | the line loop's body yields exactly the line's entry: the marker, the first step found, and its runtime when there is one |
| ReportRuntimes.ParseHlsRuntimes | bin/report_runtimes.py:89-127 | an unreadable log gives the empty map; otherwise the map the lines build, each entry overwriting the last |
| ReportRuntimes.StepKeys | bin/report_runtimes.py:94-111 | only expected steps become keys |
| ReportRuntimes.EntryNeedsMarker | bin/report_runtimes.py:105 | a line without "Info: Completed transformation" contributes nothing |
| ReportRuntimes.EntryFirstStep | bin/report_runtimes.py:107-112 | only the first step found counts; with no runtime the line contributes nothing even if a later step occurs in it |
| ReportRuntimes.LastWriteWins | bin/report_runtimes.py:104-111 | the runtime kept for a step is that of its last entry |
| ReportRuntimes.StepPresentIf | bin/report_runtimes.py:104-111 | a step some line contributed an entry for is present |
| ReportRuntimes.StepPresentOnlyIf | bin/report_runtimes.py:104-111 | a present step, with its runtime, came from some line |
| ReportRuntimes.MissingFrom | bin/report_runtimes.py:122 | the comprehension keeps exactly the listed steps the map lacks, in list order |
| ReportRuntimes.MissingSteps | bin/report_runtimes.py:122-125 | the missing steps warned about are exactly the expected steps without a runtime, in list order |
| ReportRuntimes.Put | bin/report_runtimes.py:42 | a dictionary store: replaces the entry for the name in place or appends it, and keeps names distinct |
| ReportRuntimes.Collected | bin/report_runtimes.py:37-42 | the aggregate holds each design once |
| ReportRuntimes.CollectDesigns | bin/report_runtimes.py:37-42 | the loop of `main` builds the aggregate of the logs, skipping empty results |
| ReportRuntimes.CollectedWellFormed | bin/report_runtimes.py:41-42 | the aggregate never holds an empty result and holds only expected steps |
| ReportRuntimes.StrLessIrreflexive | bin/report_runtimes.py:137 | the `str` order used by `sorted` is irreflexive |
| ReportRuntimes.StrLessTransitive | bin/report_runtimes.py:137 | and transitive |
| ReportRuntimes.StrLessTotal | bin/report_runtimes.py:137 | and total on distinct strings |
| ReportRuntimes.InsertByName | bin/report_runtimes.py:137 | inserting into a name-sorted list keeps it sorted and adds exactly the entry |
| ReportRuntimes.SortByName | bin/report_runtimes.py:137 | `sorted(design_runtimes.items())` is sorted by name and a permutation of the items |
| ReportRuntimes.Report | bin/report_runtimes.py:130-139 | one report line per design, in strictly ascending name order |
| ReportRuntimes.ReportLines | bin/report_runtimes.py:137-139 | every design has its line with its total, and every line is some design's |
| ReportRuntimes.SumOverRemove | bin/report_runtimes.py:138 | the sum over a set of keys may take out any one key first |
| ReportRuntimes.SumOverRestrict | bin/report_runtimes.py:138 | dropping a key outside the summed set leaves the sum unchanged |
| ReportRuntimes.SumValuesRemove | bin/report_runtimes.py:138 | `sum(step_runtimes.values())` is any one runtime plus the sum of the rest |
| ReportRuntimes.TotalOfIgnores | bin/report_runtimes.py:163-166 | the running total over a list of steps ignores an entry for a step not in the list |
| ReportRuntimes.TotalOfIsSum | bin/report_runtimes.py:163-166 | over a list of distinct steps naming every key, the running total equals the sum of the map's values |
| ReportRuntimes.TotalRuntimeIsSum | bin/report_runtimes.py:138 | when every key is an expected step, the total over the expected steps is `sum(step_runtimes.values())` |
| ReportRuntimes.ReportTotalsAreSums | bin/report_runtimes.py:137-139 | every report line of the aggregate prints its design's `sum(step_runtimes.values())` |
| ReportRuntimes.NearestEven | bin/report_runtimes.py:170 | the integer within 1/2 of n, and the even one at a tie |
| ReportRuntimes.Round2 | bin/report_runtimes.py:170 | `round(x, 2)` on the exact value: a multiple of 1/100 within 0.005 of x, and at a tie the even multiple |
| ReportRuntimes.RowCells | bin/report_runtimes.py:163-168 | one cell per expected step, holding its runtime or empty, and the running total of the present steps |
| ReportRuntimes.ExportRow | bin/report_runtimes.py:159-171 | the row for one design is RowOf: its name, a cell per expected step (the runtime, or empty when the step is missing), and the total rounded to two places |
| ReportRuntimes.ExportToCsv | bin/report_runtimes.py:142-171 | one row per design, in ascending name order; each row is the full RowOf of a design, and every design has its row |
| ReportRuntimes.SortedEntries | bin/report_runtimes.py:159 | the sorted list has as many entries as designs, each one a design's |
| ReportRuntimes.RunReport | bin/report_runtimes.py:24-49 | no output when there are no logs or no design has data; otherwise the report and the CSV rows, exactly one RowOf per collected design |
| NvhlsInt.BitLength | cmod/include/nvhls_int.h:75-120 | the reference bit length: 0 exactly for 0, and 2^(r-1) <= x < 2^r otherwise |
| NvhlsInt.SNIsBitLength | cmod/include/nvhls_int.h:75-94 | the `s_N` binary-search recursion started at N = 2^k computes the bit length of every X below 2^(2N) |
| NvhlsInt.NBits | cmod/include/nvhls_int.h:117-120 | `nbits<X>` of a 32-bit unsigned X is its bit length, 0 for 0 |
| NvhlsInt.Log2Floor | cmod/include/nvhls_int.h:141-144 | `nbits - 1`: the r with 2^r <= X < 2^(r+1) |
| NvhlsInt.Log2Ceil | cmod/include/nvhls_int.h:173-176 | the least r with X <= 2^r; equal to `log2_floor` exactly when X is a power of two |
| NvhlsInt.Log2CeilUnique | cmod/include/nvhls_int.h:173-176 | `log2_ceil` is the only k >= 1 with 2^(k-1) < X <= 2^k |
| NvhlsInt.IndexWidth | cmod/include/nvhls_int.h:284-287 | at least 1 and enough bits to index X entries, and no more bits than that when X >= 2 |
| NvhlsInt.NextPow2Exp | cmod/include/nvhls_int.h:207-254 | the exponent of the `next_pow2` ladder: 0 for n <= 1, the least e with n <= 2^e up to 65536, 20 above |
| NvhlsInt.NextPow2 | cmod/include/nvhls_int.h:207-254 | 1 for n <= 1, the least power of two >= n for n <= 65536, 1048576 above |
| NvhlsInt.NextPow2IsLog2Ceil | cmod/include/nvhls_int.h:207-254 | within its exact range `next_pow2` is 2^`log2_ceil` |
| NvhlsInt.GetSlc | cmod/include/nvhls_int.h:433-449 | `get_slc<W>(X, i)` is W bits long |
| NvhlsInt.GetSlcBit | cmod/include/nvhls_int.h:433-449 | bit k of `get_slc<W>(X, i)` is bit i+k of X |
| NvhlsInt.GetSlcValue | cmod/include/nvhls_int.h:433-449 | as a number the slice is (X >> i) mod 2^W |
| NvhlsInt.SetSlc | cmod/include/nvhls_int.h:386-397 | `set_slc(X, Y, i)` keeps X's width, `get_slc` at i returns Y, and every bit outside [i, i+W2-1] is X's |
| NvhlsInt.SetSlcGetSlc | cmod/include/nvhls_int.h:386-449 | writing back a slice just read leaves X unchanged |
| NvhlsInt.GetSlcRange | cmod/include/nvhls_int.h:486-498 | `get_slc(X, i, j)` is (X >> j) masked to i-j+1 bits, in X's own width |
| NvhlsInt.SplitPoint | cmod/include/nvhls_int.h:562-565 | the split point P2 of `leading_ones` lies strictly inside X and covers at least half of it |
| NvhlsInt.ClzSpec | cmod/include/nvhls_int.h:637-651 | the reference leading-zero count: the bits above the top set bit are clear, that bit is set, and the count is the whole width exactly for zero |
| NvhlsInt.LeadingOnesClz | cmod/include/nvhls_int.h:560-595 | for a nonzero X, `leading_ones` plus the leading-zero count is W-1; zero gives 0 |
| NvhlsInt.LeadingOnesUpper | cmod/include/nvhls_int.h:575-577 | with a set bit above P2, the index returned (P2 ORed with the upper slice's index) plus the leading-zero count of X is W-1 |
| NvhlsInt.LeadingOnesLower | cmod/include/nvhls_int.h:578-582 | with the bits above P2 clear, the lower slice's index plus the leading-zero count of X is W-1, and 0 for zero |
| NvhlsInt.LeadingOnesMsb | cmod/include/nvhls_int.h:560-595 | `leading_ones` of a nonzero X is the index of its most significant set bit, and 0 for zero |
| NvhlsInt.ToUnsigned | cmod/include/nvhls_int.h:627-628 | the conversion to the 32-bit `unsigned int` result keeps small values and turns -1 into 2^32-1 |
| NvhlsInt.Lzd | cmod/include/nvhls_int.h:637-651 | unsigned: the leading-zero count, W-1 for zero; signed: one less for a nonnegative nonzero X, and 2^32-1 (the wrapped -1) for a negative X |
| NvhlsInt.Shl | cmod/include/nvhls_int.h:733-734 | `<<=` within the width: bit k is bit k-s of the input, zero below s |
| NvhlsInt.Shr | cmod/include/nvhls_int.h:735-736 | `>>=` within the width: bit k is bit k+s of the input, zero above the width |
| NvhlsInt.ShlValue | cmod/include/nvhls_int.h:733-734 | as numbers, a left shift multiplies the kept low bits by 2^s |
| NvhlsInt.ShrValue | cmod/include/nvhls_int.h:735-736 | as numbers, a right shift divides by 2^s |
| NvhlsInt.LeftShift | cmod/include/nvhls_int.h:725-750 | signed: the sign bit is kept and the W-1 magnitude bits are shifted (right for a negative shift); unsigned: the whole value is shifted |
| NvhlsInt.RightShift | cmod/include/nvhls_int.h:785-810 | as `LeftShift` with the two directions swapped |
| Fifo.ModIncr | cmod/include/fifo.h:84-89 | a pointer below the length moves to the next slot, wrapping to 0 after the last |
| Fifo.FilledCountIsLength | cmod/include/fifo.h:150-164 | the count computed from head, tail and the last-action flag is the number of queued entries |
| Fifo.Fifo.constructor | cmod/include/fifo.h:92-99 | every bank starts empty with both pointers at 0 and the flag clear |
| Fifo.Fifo.IsEmpty | cmod/include/fifo.h:136-140 | true exactly when the bank holds no entry |
| Fifo.Fifo.IsFull | cmod/include/fifo.h:143-147 | true exactly when the bank holds `FifoLen` entries, so never together with `IsEmpty` |
| Fifo.Fifo.NumFilled | cmod/include/fifo.h:150-164 | the number of queued entries, at most `FifoLen` |
| Fifo.Fifo.NumAvailable | cmod/include/fifo.h:167-169 | `FifoLen` minus the queued entries; the two counts add up to `FifoLen` |
| Fifo.Fifo.GetHead | cmod/include/fifo.h:181 | the read pointer is the number of pops since reset modulo `FifoLen` |
| Fifo.Fifo.GetTail | cmod/include/fifo.h:182 | the write pointer is the number of pushes since reset modulo `FifoLen` |
| Fifo.Fifo.Peek | cmod/include/fifo.h:129-133 | the oldest entry of a nonempty bank, nothing changed |
| Fifo.Fifo.Push | cmod/include/fifo.h:102-108 | on a bank that is not full: the value joins the back of that bank's queue, tail advances modulo the length and the flag is set; other banks keep their pointers and flags |
| Fifo.Fifo.Pop | cmod/include/fifo.h:111-118 | on a nonempty bank: returns the oldest entry, removes it, head advances modulo the length and the flag clears; other banks unchanged |
| Fifo.Fifo.IncrHead | cmod/include/fifo.h:121-126 | as `Pop` without reading the entry |
| Fifo.Fifo.Reset | cmod/include/fifo.h:172-179 | every bank empty, pointers 0, flags clear |
| Fifo.OneEntryFifo.constructor | cmod/include/fifo.h:322-324 | every bank starts empty |
| Fifo.OneEntryFifo.IsEmpty | cmod/include/fifo.h:347-349 | the negated valid bit, true exactly when the bank holds nothing |
| Fifo.OneEntryFifo.IsFull | cmod/include/fifo.h:351-353 | the valid bit, true exactly when the bank holds its one entry |
| Fifo.OneEntryFifo.NumFilled | cmod/include/fifo.h:355-357 | the bank's valid bit as a count (0 or 1) |
| Fifo.OneEntryFifo.NumAvailable | cmod/include/fifo.h:359-361 | one minus the filled count |
| Fifo.OneEntryFifo.Peek | cmod/include/fifo.h:342-345 | the held entry of a full bank |
| Fifo.OneEntryFifo.Push | cmod/include/fifo.h:326-330 | on an empty bank: stores the value and sets valid |
| Fifo.OneEntryFifo.IncrHead | cmod/include/fifo.h:337-340 | on a full bank: clears valid, the entry leaves the queue |
| Fifo.OneEntryFifo.Pop | cmod/include/fifo.h:332-335 | clears valid and returns the held entry |
| Fifo.OneEntryFifo.Reset | cmod/include/fifo.h:363-368 | every bank's valid bit cleared |
| Arbiter.RRChoice | cmod/include/Arbiter.h:102-117 | for a nonzero request vector and pointer p: a valid requester, the highest valid one below p, and only when none lies below p the highest valid one overall |
| Arbiter.UnrolledValidAt | cmod/include/Arbiter.h:92-95 | bit u of the unrolled valid vector is valid bit u+1 in the lower n-1 bits and valid bit u-(n-1) above them |
| Arbiter.UnrolledNextAt | cmod/include/Arbiter.h:97-100 | the unrolled mask is all ones in the lower n-1 bits and `next` above them |
| Arbiter.PriorityAt | cmod/include/Arbiter.h:102 | a priority bit is set exactly when the unrolled mask lets that unrolled valid bit through |
| Arbiter.PriorityTop | cmod/include/Arbiter.h:102-111 | with `next` = {i < p} the highest set priority bit is `TopIndex`: the granted requester in the upper copy when it lies below p, else in the lower copy |
| Arbiter.FirstIsTop | cmod/include/Arbiter.h:109-111 | the priority vector is nonzero and `leading_ones` of it is `TopIndex` |
| Arbiter.GrantOfAt | cmod/include/Arbiter.h:112-117 | grant bit 0 comes from unrolled bit n-1, grant bit i>0 from unrolled bits n+i-1 and i-1 |
| Arbiter.GrantIsChoice | cmod/include/Arbiter.h:112-119 | the grant folded from the top priority index is one-hot at `RRChoice`, and that index is n-1 exactly when requester 0 wins |
| Arbiter.PickGrant | cmod/include/Arbiter.h:102-119 | what `pick` computes from `valid` and `next`: the one-hot grant of `RRChoice`, with the reset branch taken exactly when requester 0 wins |
| Arbiter.RoundRobinArbiter.constructor | cmod/include/Arbiter.h:77 | constructed in the reset state: `next` all ones; one requester or more |
| Arbiter.RoundRobinArbiter.Reset | cmod/include/Arbiter.h:80 | `next` becomes all ones |
| Arbiter.RoundRobinArbiter.RebuildNext | cmod/include/Arbiter.h:119-124 | after a grant to requester k >= 1 the down-counting loop leaves `next` = {i : i < k} |
| Arbiter.RoundRobinArbiter.Pick | cmod/include/Arbiter.h:88-132 | a zero request returns zero and keeps `next`; otherwise the grant is one-hot at `RRChoice` of the current pointer and the pointer moves to the winner (to n, all ones, when requester 0 wins); with one requester the grant is `Arbiter<1>`'s pass-through |
| Arbiter.RefSearch | cmod/unittests/ArbiterTop/testbench.cpp:48-61 | the reference arbiter's rotate-and-test loop only ever returns a valid requester |
| Arbiter.RefSearchBelow | cmod/unittests/ArbiterTop/testbench.cpp:55-60 | from iterator bit q the reference finds the highest valid requester below q |
| Arbiter.RefSearchWrap | cmod/unittests/ArbiterTop/testbench.cpp:55-60 | with nothing valid below q the reference wraps to the top bit and continues from there |
| Arbiter.RRChoiceIsReference | cmod/unittests/ArbiterTop/testbench.cpp:48-61 | for every request vector and iterator position the reference grants `RRChoice` at the matching pointer |
| Arbiter.RRGrants | cmod/include/Arbiter.h:88-132 | the grants `pick` returns on a sequence of request vectors, one per vector |
| Arbiter.RefGrants | cmod/unittests/ArbiterTop/testbench.cpp:48-61 | the reference arbiter's grants on the same sequence, one per vector |
| Arbiter.GrantsMatchReference | cmod/unittests/ArbiterTop/testbench.cpp:48-61 | on every sequence of request vectors the round-robin arbiter from reset grants exactly what the reference grants |
| Arbiter.PickOne | cmod/include/Arbiter.h:151-157 | `Arbiter<1>::pick` returns 1 exactly when the valid bit is set |
| Arbiter.PickStatic | cmod/include/Arbiter.h:181-190 | zero for a zero request, else one-hot at the highest valid requester; no state |
| Crossbar.Route | cmod/include/crossbar.h:88-104 | output dst is valid exactly when its selection is valid and the selected input is valid; a valid output carries the selected input's data, an invalid one zero data; an invalid selection gives an invalid output |
| Crossbar.CrossbarFull | cmod/include/crossbar.h:77-105 | the loop over output lanes fills `data_out` and `valid_out` with `Route`'s outputs |
| Crossbar.AllTrue | cmod/include/crossbar.h:117-119 | the all-true `valid_source` vector |
| Crossbar.CrossbarValidIn | cmod/include/crossbar.h:111-123 | the five-argument form is the full crossbar with every selection valid |
| Crossbar.CrossbarData | cmod/include/crossbar.h:129-141 | the three-argument form is the full crossbar with every input and selection valid, valid bits dropped |
| Crossbar.AllSourcesValid | cmod/include/crossbar.h:111-123 | with every selection valid an output is valid exactly when the input it names is |
| Crossbar.AllValidCopies | cmod/include/crossbar.h:129-141 | with everything valid, `data_out[dst]` is `data_in[source[dst]]` for every dst |
| Crossbar.OutputsIndependent | cmod/include/crossbar.h:89-104 | each output depends only on its own selection, so several outputs may copy the same input |
| OneHotToBin.AnyMatch | cmod/include/one_hot_to_bin.h:63-70 | the OR-reduction of the masked input is set exactly when some set input bit's index has the output bit set |
| OneHotToBin.BinOf | cmod/include/one_hot_to_bin.h:53-74 | output bit b is the OR, over the set input bits i, of bit b of i; all `BinLen` bits are written |
| OneHotToBin.OneHotToBinary | cmod/include/one_hot_to_bin.h:48-75 | the nested loops compute `BinOf` of the input |
| OneHotToBin.OneHotBits | cmod/include/one_hot_to_bin.h:53-74 | a one-hot input at bit k gives the binary digits of k |
| OneHotToBin.OneHotValue | cmod/include/one_hot_to_bin.h:48-75 | a one-hot input at bit k, with k representable on `BinLen` bits, gives the number k |
| OneHotToBin.ZeroInput | cmod/include/one_hot_to_bin.h:63-73 | a zero input gives a zero output |
| OneHotToBin.DocumentedExample | cmod/include/one_hot_to_bin.h:35-38 | input 4 on four bits becomes 2 on two bits |
| MemArray.SliceOf | cmod/include/mem_array.h:139 | slice i of a word is its bits [i*SliceWidth, (i+1)*SliceWidth) |
| MemArray.Join | cmod/include/mem_array.h:124-129 | the defined slices laid side by side fill NumByteEnables*SliceWidth bits |
| MemArray.MemWrite | cmod/include/mem_array.h:134-153 | a write keeps the number of banks and entries |
| MemArray.MemRead | cmod/include/mem_array.h:121-132 | a read returns a full WordWidth-bit word |
| MemArray.MemClear | cmod/include/mem_array.h:112-119 | `clear` keeps the shape of every bank and word |
| MemArray.JoinSlice | cmod/include/mem_array.h:124-129 | slice i of the assembled word is the i-th stored slice |
| MemArray.JoinSlices | cmod/include/mem_array.h:136-140 | joining the slices `write` cuts from a value gives back its low NumByteEnables*SliceWidth bits |
| MemArray.ReadAfterWrite | cmod/include/mem_array.h:121-153 | a full-mask write then a read of the same word returns the value written, with the uncovered top bits zero; exactly the value when the word width divides evenly |
| MemArray.ReadAfterMaskedWrite | cmod/include/mem_array.h:141-151 | after a masked write, slice i reads as slice i of the value where `wce` holds and mask bit i is set, and as before elsewhere |
| MemArray.ReadSlice | cmod/include/mem_array.h:122-129 | slice i of a read word is slice i of the entry |
| MemArray.WriteDisabled | cmod/include/mem_array.h:141 | a write with `wce` clear changes nothing |
| MemArray.WriteOtherWords | cmod/include/mem_array.h:143-150 | a write to word idx of bank bank_sel leaves every other word of every bank unchanged |
| MemArray.ReadAfterClear | cmod/include/mem_array.h:112-132 | after `clear` every word reads as zero |
| MemArray.SliceIndex | cmod/include/mem_array.h:125 | the flat slice index idx*NumByteEnables+i belongs to word idx and to no other |
| MemArray.View | cmod/include/mem_array.h:97-98 | the flat bank array read as NumBanks banks of words of NumByteEnables slices |
| MemArray.ViewWrite | cmod/include/mem_array.h:143-150 | writing the flat slices of word idx is the word-level write |
| MemArray.ViewClear | cmod/include/mem_array.h:112-119 | zeroing every flat slice is the word-level clear |
| MemArray.MemArray.SliceFits | cmod/include/mem_array.h:88 | SliceWidth = WordWidth/NumByteEnables slices fit in the word |
| MemArray.MemArray.Sep | cmod/include/mem_array.h:82-110 | `mem_array_sep`: NumEntries/NumBanks entries per bank, every slice undefined |
| MemArray.MemArray.Opt | cmod/include/mem_array.h:192-227 | `mem_array_opt`: NumEntriesPerBank entries per bank, every slice undefined |
| MemArray.MemArray.Clear | cmod/include/mem_array.h:112-119 | the new contents are the cleared old contents |
| MemArray.MemArray.Read | cmod/include/mem_array.h:121-132 | returns the word the contents hold at idx of bank bank_sel |
| MemArray.MemArray.Write | cmod/include/mem_array.h:134-153 | the new contents are the masked write of the old contents |
| BankWords.Get | cmod/include/mem_array.h:121-132 | `read(idx, bank)` of a one-slice word returns a full-width word |
| BankWords.Put | cmod/include/mem_array.h:134-153 | `write(idx, bank, v)` with the default mask and `wce`: word idx of the bank reads back as v and every other word is unchanged |
| BankWords.Stores | cmod/include/ArbitratedScratchpad.h:162-172 | the memory after the bank loop's stores, in bank order, keeps its shape |
| BankWords.StoresElsewhere | cmod/include/ArbitratedScratchpad.h:162-172 | the bank loop touches word e of bank b only when bank b stores to e |
| BankWords.StoresWrite | cmod/include/ArbitratedScratchpad.h:162-172 | after the bank loop, a word a bank stored to reads back as that bank's data |
| ReorderBuf.LowestFree | cmod/include/ReorderBuf.h:90-103 | the lowest id whose repository bit is clear, and None only when every bit is set |
| ReorderBuf.WaitingIndex | cmod/include/ReorderBuf.h:134 | the position of the entry that waits for the id |
| ReorderBuf.WaitingUnique | cmod/include/ReorderBuf.h:117-139 | in a consistent buffer at most one entry waits for a given id |
| ReorderBuf.EmptyConsistent | cmod/include/ReorderBuf.h:71-73 | the empty buffer with every id free is consistent |
| ReorderBuf.RequestConsistent | cmod/include/ReorderBuf.h:111-121 | `addRequest` when `canAcceptRequest` holds takes an id not outstanding and keeps the buffer consistent |
| ReorderBuf.RespondConsistent | cmod/include/ReorderBuf.h:132-140 | `addResponse` for an outstanding id finds its entry and keeps the buffer consistent |
| ReorderBuf.PopConsistent | cmod/include/ReorderBuf.h:142-150 | `popResponse` of a ready head keeps the buffer consistent |
| ReorderBuf.RespondCommutes | cmod/include/ReorderBuf.h:132-140 | responses to two different outstanding ids commute, so release order does not depend on response order |
| ReorderBuf.PopReleasesOldest | cmod/include/ReorderBuf.h:132-150 | once the oldest request is answered, `popResponse` returns its data |
| ReorderBuf.WaitingIdsCount | cmod/include/ReorderBuf.h:84 | distinct waiting ids below InFlight number as many as the waiting entries |
| ReorderBuf.BoundedSetSize | cmod/include/ReorderBuf.h:82-84 | a set of ids below n has at most n elements |
| ReorderBuf.OutstandingBound | cmod/include/ReorderBuf.h:78-88 | at most InFlight requests are outstanding and at most Depth entries held |
| ReorderBuf.StoredRequest | cmod/include/ReorderBuf.h:117-118 | recording the tail slot for the new id and pushing a clear valid bit stores the new waiting entry |
| ReorderBuf.StoredBeat | cmod/include/axi/AxiManagerGate/ReorderBufWBeats.h:44-50 | writing the tail slot and pushing a set valid bit stores a ready entry |
| ReorderBuf.StoredRespond | cmod/include/ReorderBuf.h:134-136 | writing the data and the valid bit at the recorded slot stores the answered entry |
| ReorderBuf.StoredPop | cmod/include/ReorderBuf.h:146-147 | advancing the head drops the head entry |
| ReorderBuf.InvEmpty | cmod/include/ReorderBuf.h:152-156 | reset pointers and a clear repository satisfy the invariant for the empty buffer |
| ReorderBuf.InvPointers | cmod/include/ReorderBuf.h:106-160 | the vbits FIFO is full exactly when Depth entries are held, empty exactly when none, and its head bit and storage slot are the head entry's |
| ReorderBuf.InvRequest | cmod/include/ReorderBuf.h:111-121 | the concrete `addRequest` performs the abstract request |
| ReorderBuf.InvRespond | cmod/include/ReorderBuf.h:132-140 | the concrete `addResponse` performs the abstract response |
| ReorderBuf.InvOutstanding | cmod/include/ReorderBuf.h:134 | the slot recorded for an outstanding id lies in the queue |
| ReorderBuf.InvPop | cmod/include/ReorderBuf.h:142-150 | the concrete `popResponse` performs the abstract pop |
| ReorderBuf.ReorderBuf.constructor | cmod/include/ReorderBuf.h:71-73 | a new buffer holds no entries and every id is free |
| ReorderBuf.ReorderBuf.GetNextAvailId | cmod/include/ReorderBuf.h:90-103 | succeeds exactly when some id is free, returns the lowest free id and marks it used; otherwise leaves the repository alone |
| ReorderBuf.ReorderBuf.CanAcceptRequest | cmod/include/ReorderBuf.h:106-109 | true exactly when some id is free and the entry queue is not full |
| ReorderBuf.ReorderBuf.IsEmpty | cmod/include/ReorderBuf.h:158-161 | true exactly when no entry is held |
| ReorderBuf.ReorderBuf.TopResponseReady | cmod/include/ReorderBuf.h:123-130 | true exactly when the head entry holds its data |
| ReorderBuf.ReorderBuf.AddRequest | cmod/include/ReorderBuf.h:111-121 | returns the lowest free id, and the new state is the abstract request |
| ReorderBuf.ReorderBuf.AddResponse | cmod/include/ReorderBuf.h:132-140 | the id had a waiting entry, and the new state is the abstract response |
| ReorderBuf.ReorderBuf.PopResponse | cmod/include/ReorderBuf.h:142-150 | returns the head entry's data and the new state is the abstract pop |
| ReorderBuf.ReorderBuf.Reset | cmod/include/ReorderBuf.h:152-156 | the buffer is empty and every id free |
| ReorderBufWBeats.BeatConsistent | cmod/include/axi/AxiManagerGate/ReorderBufWBeats.h:44-50 | a beat with room keeps the buffer consistent and adds no outstanding request |
| ReorderBufWBeats.RespondAfterBeat | cmod/include/axi/AxiManagerGate/ReorderBufWBeats.h:44-50 | a beat never answers a request: responding before or after the beat gives the same buffer |
| ReorderBufWBeats.BeatPoppedInOrder | cmod/include/axi/AxiManagerGate/ReorderBufWBeats.h:44-50 | a beat is released after what was queued before it |
| ReorderBufWBeats.InvBeat | cmod/include/axi/AxiManagerGate/ReorderBufWBeats.h:44-50 | the concrete `addBeat` performs the abstract beat |
| ReorderBufWBeats.CanReceiveBeats | cmod/include/axi/AxiManagerGate/ReorderBufWBeats.h:36-42 | true exactly when the entry queue is not full |
| ReorderBufWBeats.AddBeat | cmod/include/axi/AxiManagerGate/ReorderBufWBeats.h:44-50 | the new state is the abstract beat; the id repository and the id-to-slot table are unchanged |
| ArbitratedCrossbar.Grant | cmod/include/arbitrated_crossbar.h:225-256 | an output grants nobody exactly when it is not ready or nobody asks for it, and otherwise an input that asks for it |
| ArbitratedCrossbar.Grants | cmod/include/arbitrated_crossbar.h:225-256 | one grant per output |
| ArbitratedCrossbar.GrantRequested | cmod/include/arbitrated_crossbar.h:191-256 | an output grants only a valid input whose dest is that output, and only when the output is ready |
| ArbitratedCrossbar.GrantedOnce | cmod/include/arbitrated_crossbar.h:191-256 | one call grants an input to at most one output, since the input asks for one output only |
| ArbitratedCrossbar.GrantWhenRequested | cmod/include/arbitrated_crossbar.h:225-256 | a ready output that some valid input asks for grants one of them |
| ArbitratedCrossbar.ConsumedValid | cmod/include/arbitrated_crossbar.h:244-247 | an input is consumed only if it was valid, so no empty input queue is popped |
| ArbitratedCrossbar.XbarStep | cmod/include/arbitrated_crossbar.h:225-256 | handling output out extends the outputs done so far by one: its pointer, valid bit, data, source and the consumed inputs |
| ArbitratedCrossbar.QueueLen | cmod/include/arbitrated_crossbar.h:343-436 | the queue length used for a FIFO, at least one and LenInputBuffer/LenOutputBuffer when those are positive |
| ArbitratedCrossbar.Accept | cmod/include/arbitrated_crossbar.h:346-351 | the input queues after the input stage, one per input |
| ArbitratedCrossbar.AcceptLane | cmod/include/arbitrated_crossbar.h:346-361 | the input loop after lane i holds the accepted queues below i and the old ones above |
| ArbitratedCrossbar.Accepted | cmod/include/arbitrated_crossbar.h:343-370 | the input queues after the input stage, unchanged when there are no input queues |
| ArbitratedCrossbar.ReadyIn | cmod/include/arbitrated_crossbar.h:347 | one `ready` bit per input |
| ArbitratedCrossbar.Heads | cmod/include/arbitrated_crossbar.h:332-360 | one input view per queue |
| ArbitratedCrossbar.NonEmpty | cmod/include/arbitrated_crossbar.h:352 | one `input_valid` bit per queue |
| ArbitratedCrossbar.OutputReady | cmod/include/arbitrated_crossbar.h:374-384 | one `output_ready` bit per output |
| ArbitratedCrossbar.Consumed | cmod/include/arbitrated_crossbar.h:218-247 | one `input_consumed` bit per input |
| ArbitratedCrossbar.Consume | cmod/include/arbitrated_crossbar.h:393-403 | one queue per input after the heads are dropped |
| ArbitratedCrossbar.Forward | cmod/include/arbitrated_crossbar.h:250-254 | one datum per output |
| ArbitratedCrossbar.Forwarded | cmod/include/arbitrated_crossbar.h:226-254 | one valid bit per output |
| ArbitratedCrossbar.Enqueue | cmod/include/arbitrated_crossbar.h:414-417 | one queue per output after the forwarded data are pushed |
| ArbitratedCrossbar.HeadsOr | cmod/include/arbitrated_crossbar.h:418-421 | one `data_out` per output |
| ArbitratedCrossbar.Sources | cmod/include/arbitrated_crossbar.h:250-254 | one `source` entry per output |
| ArbitratedCrossbar.NewPtrs | cmod/include/arbitrated_crossbar.h:235-239 | one arbiter pointer per output |
| ArbitratedCrossbar.InputView | cmod/include/arbitrated_crossbar.h:343-370 | what the crossbar sees: one datum and one valid bit per input |
| ArbitratedCrossbar.AcceptIffReady | cmod/include/arbitrated_crossbar.h:346-351 | with input queues, a valid input joins its queue exactly when `ready` reports it, and an input that is not valid is always ready |
| ArbitratedCrossbar.RunMovesHeads | cmod/include/arbitrated_crossbar.h:313-437 | with queues on both sides one `run` moves an input queue's head at most once, and only to the output queue its dest names, with `source` naming the input |
| ArbitratedCrossbar.RunFillsOutputs | cmod/include/arbitrated_crossbar.h:313-437 | with queues on both sides every output queue keeps its contents or gains exactly the head of the input queue its `source` names, which that queue loses |
| ArbitratedCrossbar.RunWithoutQueues | cmod/include/arbitrated_crossbar.h:313-437 | without queues `run` is a pure arbitrated crossbar: an input is ready exactly when some output took it; a valid output carries its source's data, a valid input naming that output; an invalid output carries zero |
| ArbitratedCrossbar.StatusGuardAdmitsMissingBank | cmod/include/arbitrated_crossbar.h:137-155 | with three inputs index 3 fits an `InputIdx`, passes the `index <= NumInputs` check and names no queue bank |
| ArbitratedCrossbar.ArbitratedCrossbar.Ptrs | cmod/include/arbitrated_crossbar.h:115-118 | one arbiter pointer per output, each in range |
| ArbitratedCrossbar.ArbitratedCrossbar.MergeGrant | cmod/include/arbitrated_crossbar.h:243-247 | `input_consumed` becomes the bitwise OR of itself and the grant |
| ArbitratedCrossbar.ArbitratedCrossbar.Xbar | cmod/include/arbitrated_crossbar.h:178-256 | the arbiter pointers, valid bits, data, source entries and `input_consumed` are those the grants of all outputs determine |
| ArbitratedCrossbar.ArbitratedCrossbar.XbarLane | cmod/include/arbitrated_crossbar.h:225-255 | one iteration of the output loop extends the outputs done by output out |
| ArbitratedCrossbar.ArbitratedCrossbar.WriteLane | cmod/include/arbitrated_crossbar.h:226-254 | the lane is invalid unless it granted, in which case it takes the data and the source index |
| ArbitratedCrossbar.ArbitratedCrossbar.ArbitrateLane | cmod/include/arbitrated_crossbar.h:229-240 | a ready output runs its arbiter and the pointer moves as the grant says; an output that is not ready changes nothing |
| ArbitratedCrossbar.ArbitratedCrossbar.PickAt | cmod/include/arbitrated_crossbar.h:235-239 | arbiter out returns the one-hot round-robin choice and moves its pointer; the other arbiters are untouched |
| ArbitratedCrossbar.ArbitratedCrossbar.constructor | cmod/include/arbitrated_crossbar.h:121 | for any NumInputs from 1, every queue is empty and every arbiter pointer is at NumInputs |
| ArbitratedCrossbar.ArbitratedCrossbar.Reset | cmod/include/arbitrated_crossbar.h:124-134 | every queue is empty and every arbiter pointer is at NumInputs |
| ArbitratedCrossbar.ArbitratedCrossbar.ResetLane | cmod/include/arbitrated_crossbar.h:130-133 | the output queues are empty and arbiter out is reset; the other arbiters are untouched |
| ArbitratedCrossbar.ArbitratedCrossbar.IsInputEmpty | cmod/include/arbitrated_crossbar.h:137-140 | corrected guard `index < NumInputs`: true exactly when input queue index is empty |
| ArbitratedCrossbar.ArbitratedCrossbar.IsOutputEmpty | cmod/include/arbitrated_crossbar.h:142-145 | true exactly when output queue index is empty |
| ArbitratedCrossbar.ArbitratedCrossbar.IsInputFull | cmod/include/arbitrated_crossbar.h:147-150 | true exactly when input queue index holds its length, which it never exceeds |
| ArbitratedCrossbar.ArbitratedCrossbar.IsOutputFull | cmod/include/arbitrated_crossbar.h:152-155 | true exactly when output queue index holds its length, which it never exceeds |
| ArbitratedCrossbar.ArbitratedCrossbar.Push | cmod/include/arbitrated_crossbar.h:158-170 | the pair (data, dest) joins the tail of input queue src; nothing else changes |
| ArbitratedCrossbar.ArbitratedCrossbar.Peek | cmod/include/arbitrated_crossbar.h:172 | the head of output queue index |
| ArbitratedCrossbar.ArbitratedCrossbar.Pop | cmod/include/arbitrated_crossbar.h:175 | returns the head of output queue index and removes it; nothing else changes |
| ArbitratedCrossbar.ArbitratedCrossbar.IsAllInputEmpty | cmod/include/arbitrated_crossbar.h:259-267 | true exactly when every input queue is empty |
| ArbitratedCrossbar.ArbitratedCrossbar.IsAllOutputEmpty | cmod/include/arbitrated_crossbar.h:269-277 | true exactly when every output queue is empty |
| ArbitratedCrossbar.ArbitratedCrossbar.IsAllInputReady | cmod/include/arbitrated_crossbar.h:279-287 | true exactly when no input queue is full |
| ArbitratedCrossbar.ArbitratedCrossbar.PopAllLanes | cmod/include/arbitrated_crossbar.h:290-298 | every output queue whose valid bit is set loses its head; nothing else changes |
| ArbitratedCrossbar.ArbitratedCrossbar.InputLane | cmod/include/arbitrated_crossbar.h:346-361 | lane i accepts a valid input when its queue has room, reports `ready`, and shows its head |
| ArbitratedCrossbar.ArbitratedCrossbar.InputStage | cmod/include/arbitrated_crossbar.h:343-361 | the input queues become the accepted queues, `ready` is as reported, and the crossbar sees the queue heads |
| ArbitratedCrossbar.ArbitratedCrossbar.OutputReadyStage | cmod/include/arbitrated_crossbar.h:374-384 | an output is ready when its queue is not full, always without output queues |
| ArbitratedCrossbar.ArbitratedCrossbar.ConsumeInputs | cmod/include/arbitrated_crossbar.h:393-403 | every consumed input queue drops its head once |
| ArbitratedCrossbar.ArbitratedCrossbar.OutputLane | cmod/include/arbitrated_crossbar.h:414-421 | a forwarded datum joins output queue out, which then shows its head |
| ArbitratedCrossbar.ArbitratedCrossbar.OutputStage | cmod/include/arbitrated_crossbar.h:411-427 | every forwarded datum joins its output queue and each output shows the head of its queue |
| ArbitratedCrossbar.ArbitratedCrossbar.Inputs | cmod/include/arbitrated_crossbar.h:343-370 | the input stage with input queues, the inputs themselves without them |
| ArbitratedCrossbar.ArbitratedCrossbar.Cross | cmod/include/arbitrated_crossbar.h:374-388 | the pointers move as the grants of all outputs on what the inputs show |
| ArbitratedCrossbar.ArbitratedCrossbar.XbarFresh | cmod/include/arbitrated_crossbar.h:335-341 | `xbar` on the zero-initialised `output_data` |
| ArbitratedCrossbar.ArbitratedCrossbar.Consumption | cmod/include/arbitrated_crossbar.h:393-409 | pops the consumed input queues, or reports `ready` as `input_consumed` without them |
| ArbitratedCrossbar.ArbitratedCrossbar.Outputs | cmod/include/arbitrated_crossbar.h:411-437 | through the output queues, or straight to the outputs without them |
| ArbitratedCrossbar.ArbitratedCrossbar.Front | cmod/include/arbitrated_crossbar.h:313-388 | the input stage followed by the crossbar |
| ArbitratedCrossbar.ArbitratedCrossbar.Back | cmod/include/arbitrated_crossbar.h:393-437 | the consumption of the granted inputs followed by the output stage |
| ArbitratedCrossbar.ArbitratedCrossbar.Run | cmod/include/arbitrated_crossbar.h:313-437 | the queues, pointers, outputs, `ready` and `source` after the call are those of one abstract `run` step |
| ArbitratedCrossbar.ArbitratedCrossbar.RunWithoutSource | cmod/include/arbitrated_crossbar.h:444-453 | the six-argument `run` is the seven-argument one with the source entries dropped |
| ArbitratedCrossbar.ArbitratedCrossbar.RunFresh | cmod/include/arbitrated_crossbar.h:444-453 | the six-argument `run` on fresh output arrays returns one abstract step's outputs |
| ArbitratedCrossbar.ArbitratedCrossbar.RunFreshWithSource | cmod/include/arbitrated_crossbar.h:313-437 | the seven-argument `run` on fresh output arrays returns one abstract step's outputs and sources |
| ArbitratedCrossbar.ArbitratedCrossbar.RunKeepSource | cmod/include/arbitrated_crossbar.h:313-437 | the seven-argument `run` with a local `source` array whose entries are returned |
| Marshaller.Flatten | connections/cmod/include/connections/marshaller.h:168-182 | the marshalled vector of a sequence of fields is exactly as wide as the fields together |
| Marshaller.FieldOf | connections/cmod/include/connections/marshaller.h:178 | field k of a layout is the bit range from its offset, the total width of the fields before it |
| Marshaller.Unpack | connections/cmod/include/connections/marshaller.h:177-181 | the fields read off a vector, one per width, each the range at its offset |
| Marshaller.FlattenSnoc | connections/cmod/include/connections/marshaller.h:172-176 | adding one more field puts it directly above the fields already marshalled |
| Marshaller.Flatten1 | connections/cmod/include/connections/marshaller.h:172-176 | a message of one field marshals to that field |
| Marshaller.FlattenCons | connections/cmod/include/connections/marshaller.h:172-176 | a field below a message shifts the message up by the field's width |
| Marshaller.SumUniform | connections/cmod/include/connections/marshaller.h:168-182 | n fields of width w take n*w bits |
| Marshaller.Flatten2 | connections/cmod/include/connections/marshaller.h:190-196 | `m & a & b` marshals to a then b above it |
| Marshaller.Flatten3 | connections/cmod/include/connections/marshaller.h:190-196 | three fields lie side by side, the first lowest |
| Marshaller.Flatten4 | connections/cmod/include/connections/marshaller.h:190-196 | four fields lie side by side, the first lowest |
| Marshaller.FieldPlacement | connections/cmod/include/connections/marshaller.h:175 | field k of a marshalled vector occupies bits [offset, offset+width) |
| Marshaller.UnpackFlatten | connections/cmod/include/connections/marshaller.h:168-182 | unmarshalling reads the ranges marshalling wrote, in the same order, and recovers every field; the bits above are ignored |
| Marshaller.FieldAfterFlatten | connections/cmod/include/connections/marshaller.h:178 | reading field k back from a marshalled vector gives field k |
| Marshaller.FlattenUnpack | connections/cmod/include/connections/marshaller.h:168-182 | marshalling the fields read off a vector gives back the vector |
| Marshaller.FlattenUnpackBit | connections/cmod/include/connections/marshaller.h:168-182 | bit by bit, re-marshalling the unmarshalled fields gives the original bit |
| Marshaller.FieldContaining | connections/cmod/include/connections/marshaller.h:168-182 | every bit of a layout lies in exactly the range of some field |
| Marshaller.FlattenValue | connections/cmod/include/connections/marshaller.h:175 | as a number the marshalled vector weights each field by 2 to the power of its offset |
| Marshaller.Marshaller.constructor | connections/cmod/include/connections/marshaller.h:165 | marshalling starts from a zero vector at index 0 |
| Marshaller.Marshaller.FromBits | connections/cmod/include/connections/marshaller.h:166 | unmarshalling starts from the given vector at index 0 |
| Marshaller.Marshaller.AddField | connections/cmod/include/connections/marshaller.h:169-182 | marshalling writes d to the next FieldSize bits and returns d; unmarshalling leaves the vector and returns those bits; the index advances by FieldSize, which must not pass Size |
| Marshaller.Marshaller.GetResult | connections/cmod/include/connections/marshaller.h:185-188 | once the index reaches Size the vector is the added fields laid end to end |
| Marshaller.AddFieldStep | connections/cmod/include/connections/marshaller.h:169-182 | after each field the bits below the index are the fields so far, and while marshalling the bits above are still zero |
| Marshaller.MarshallFields | connections/cmod/include/connections/marshaller.h:165-196 | `m & f1 & f2 ...` on a fresh marshaller of the message's width gives the flat vector of the fields |
| Marshaller.MarshallStep | connections/cmod/include/connections/marshaller.h:175-176 | field i is written at the running offset, which then moves past it |
| Marshaller.UnmarshallFields | connections/cmod/include/connections/marshaller.h:166-196 | `m & f1 & f2 ...` on a marshaller built from v reads the fields of the given widths from bit 0 upwards |
| Marshaller.UnpackStep | connections/cmod/include/connections/marshaller.h:178-180 | field i is the slice at the running offset, which then moves past it |
| Marshaller.StaticMax | connections/cmod/include/connections/marshaller.h:510-514 | the larger of A and B: at least both and one of them |
| Marshaller.UnionWidth | connections/cmod/include/connections/marshaller.h:547-549 | the wider alternative's width plus one tag bit |
| Marshaller.BitUnion2.constructor | connections/cmod/include/connections/marshaller.h:553 | zero payload and tag 0 |
| Marshaller.BitUnion2.FromA | connections/cmod/include/connections/marshaller.h:554 | a union built from an A holds an A, and that A is the value given |
| Marshaller.BitUnion2.FromB | connections/cmod/include/connections/marshaller.h:555 | a union built from a B holds a B, and that B is the value given |
| Marshaller.BitUnion2.ValueA | connections/cmod/include/connections/marshaller.h:560-566 | the A read from the payload is A's width |
| Marshaller.BitUnion2.ValueB | connections/cmod/include/connections/marshaller.h:567-573 | the B read from the payload is B's width |
| Marshaller.BitUnion2.GetA | connections/cmod/include/connections/marshaller.h:560-566 | only while the tag is 0: the A held in the low bits of the payload |
| Marshaller.BitUnion2.GetB | connections/cmod/include/connections/marshaller.h:567-573 | only while the tag is 1: the B held in the low bits of the payload |
| Marshaller.BitUnion2.SetA | connections/cmod/include/connections/marshaller.h:575-584 | the payload is a zero-padded above, the tag 0, and `GetA` returns a |
| Marshaller.BitUnion2.SetB | connections/cmod/include/connections/marshaller.h:585-592 | the payload is b zero-padded above, the tag 1, and `GetB` returns b |
| Marshaller.BitUnion2.ToBits | connections/cmod/include/connections/marshaller.h:594-598 | the union marshals as the payload then the tag, exactly `width` bits |
| TypeToBits.TypeToBits | cmod/include/TypeToBits.h:48-55 | the vector has exactly the message's width and each field sits at its offset |
| TypeToBits.BitsToType | cmod/include/TypeToBits.h:81-87 | unmarshalling a vector of the message's width gives a message of that layout whose `TypeToBits` is the vector |
| TypeToBits.BitsRoundTrip | cmod/include/TypeToBits.h:48-87 | `BitsToType<T>(TypeToBits<T>(x)) == x` |
| TypeToBits.UintLayout | cmod/include/TypeToBits.h:115-117 | the one-field layout of `NVUINTW(w)` is w bits wide |
| TypeToBits.TypeToNVUINT | cmod/include/TypeToBits.h:115-118 | the unsigned value of a message is its flat vector, of the message's width |
| TypeToBits.NVUINTToType | cmod/include/TypeToBits.h:144-147 | an unsigned value of T's width unmarshals to a T whose `TypeToBits` is that value |
| TypeToBits.UintRoundTrip | cmod/include/TypeToBits.h:115-147 | `NVUINTToType<T>(TypeToNVUINT<T>(x)) == x` |
| TypeToBits.DocumentedExample | cmod/include/TypeToBits.h:35-39 | the 4-bit value 4 becomes the vector 0100, whose unsigned value is 4 |
| Packet.Code | cmod/include/nvhls_packet.h:206 | BODY, HEAD, TAIL and SNGL are the two-bit codes 0 to 3 |
| Packet.CodeBijective | cmod/include/nvhls_packet.h:206 | every two-bit value is the code of exactly one flit kind |
| Packet.FlitId2bit.Raw | cmod/include/nvhls_packet.h:224-233 | `Marshall` writes the two bits of `data`, whose value is `data` |
| Packet.FlitId2bit.constructor | cmod/include/nvhls_packet.h:202-235 | a new flit-kind register reads BODY |
| Packet.FlitId2bit.Set | cmod/include/nvhls_packet.h:213 | `data` becomes the code of the kind |
| Packet.FlitId2bit.Reset | cmod/include/nvhls_packet.h:214 | the kind becomes BODY: neither header nor tail |
| Packet.KindTests | cmod/include/nvhls_packet.h:206-211 | header exactly for HEAD or SNGL, tail exactly for TAIL or SNGL, body exactly for BODY, single exactly for SNGL |
| Packet.KindBits | cmod/include/nvhls_packet.h:208-211 | `isHeader` reads bit 0, `isTail` bit 1; single is header and tail, body is neither |
| Packet.Packet.constructor | cmod/include/nvhls_packet.h:73-126 | a new packet has zero data, dest and packet id, with dest DestWidthPerHop*MaxHops bits wide |
| Packet.Packet.Reset | cmod/include/nvhls_packet.h:88-142 | data, dest and packet id become zero |
| Packet.Packet.ToBits | cmod/include/nvhls_packet.h:112-162 | the marshalled packet is `width` bits: data, dest and the packet id laid end to end |
| Packet.PacketLayout | cmod/include/nvhls_packet.h:94-106 | data lies at [0, data_width), dest from `dest_start_bit`, the packet id from `packet_id_start_bit` |
| Packet.Flit.constructor | cmod/include/nvhls_packet.h:342-423 | a new flit has zero data, dest and packet id and kind BODY |
| Packet.Flit.Reset | cmod/include/nvhls_packet.h:332-418 | data, dest and packet id become zero and the kind BODY |
| Packet.Flit.GetPacketId | cmod/include/nvhls_packet.h:401-470 | a wormhole flit's packet id, which fits its width, and 0 without an id field |
| Packet.Flit.ToBits | cmod/include/nvhls_packet.h:323-476 | the marshalled flit is `width` bits: its fields laid end to end |
| Packet.WormHoleLayout | cmod/include/nvhls_packet.h:384-395 | a wormhole flit has data at [0, data_width), the packet id directly above and the two kind bits on top |
| Packet.StoreForwardLayout | cmod/include/nvhls_packet.h:301-314 | a store-and-forward flit has data, dest, packet id and kind bits, each directly above the one before |
| NvhlsVector.RawOf | cmod/include/nvhls_vector.h:132-139 | the raw form of VectorLength elements is VectorLength*type_width bits |
| NvhlsVector.Lane | cmod/include/nvhls_vector.h:102 | element i's lane of a raw vector is type_width bits |
| NvhlsVector.VectorOf | cmod/include/nvhls_vector.h:141-146 | the elements read back from a raw vector, each the value of its lane and each fitting the element type |
| NvhlsVector.RawLayout | cmod/include/nvhls_vector.h:132-139 | element i sits at bits [i*type_width, (i+1)*type_width) of the raw form |
| NvhlsVector.LaneOfFront | cmod/include/nvhls_vector.h:132-146 | appending a lane keeps the earlier lanes |
| NvhlsVector.LaneOfLast | cmod/include/nvhls_vector.h:132-146 | the appended lane is the last one |
| NvhlsVector.Packed | cmod/include/nvhls_vector.h:133-137 | the vector after packing a prefix of the elements is the full raw width |
| NvhlsVector.PackStep | cmod/include/nvhls_vector.h:136 | `set_slc` of element i over the zeros above the packed prefix packs one more element |
| NvhlsVector.PackedEnds | cmod/include/nvhls_vector.h:133-138 | nothing packed is the zero vector, everything packed is the raw form |
| NvhlsVector.Pack | cmod/include/nvhls_vector.h:132-139 | the loop of `to_rawbits` returns the raw form of the elements |
| NvhlsVector.RawRoundTrip | cmod/include/nvhls_vector.h:132-146 | `to_vector(to_rawbits())` gives back the elements, when they fit the element type |
| NvhlsVector.VectorRoundTrip | cmod/include/nvhls_vector.h:132-146 | `to_rawbits` of `to_vector(r)` gives back r |
| NvhlsVector.RepackStep | cmod/include/nvhls_vector.h:132-146 | repacking the elements of a raw vector is the first n-1 repacked and the last lane as it was |
| NvhlsVector.Images | cmod/include/nvhls_vector.h:148-154 | the fields `Marshall` names are the elements' type_width-bit images, in order |
| NvhlsVector.MarshallIsRawbits | cmod/include/nvhls_vector.h:132-154 | `Marshall` of a vector produces its raw form |
| NvhlsVector.NvScVector.constructor | cmod/include/nvhls_vector.h:86-87 | a vector of VectorLength elements of the element type |
| NvhlsVector.NvScVector.FromArray | cmod/include/nvhls_vector.h:93-97 | every element is copied from the array |
| NvhlsVector.NvScVector.FromRaw | cmod/include/nvhls_vector.h:99-104 | every element is sliced out of the raw bits |
| NvhlsVector.NvScVector.FromInt | cmod/include/nvhls_vector.h:105-111 | the integer is reduced to the raw width in two's complement, then every element is sliced out of it |
| NvhlsVector.NvScVector.Assign | cmod/include/nvhls_vector.h:112-118 | every element of that is copied |
| NvhlsVector.NvScVector.CopyTo | cmod/include/nvhls_vector.h:120-124 | every element is copied into out |
| NvhlsVector.NvScVector.ToRawbits | cmod/include/nvhls_vector.h:132-139 | the raw form of the elements, which reads back as the elements |
| NvhlsVector.NvScVector.ToVector | cmod/include/nvhls_vector.h:141-146 | the elements become those sliced out of rawbits, whose raw form is rawbits again |
| NvhlsVector.Unpack | cmod/include/nvhls_vector.h:99-146 | the element loop of the raw-bits constructors and `to_vector` slices every element out |
| NvhlsVector.Equal | cmod/include/nvhls_vector.h:157-166 | true exactly when the two vectors hold the same elements |
| NvhlsVector.Apply | cmod/include/nvhls_vector.h:210-315 | one output element, truncated to the output width |
| NvhlsVector.Elementwise | cmod/include/nvhls_vector.h:210-315 | `out[i]` is `in1[i] op in2[i]` truncated to the output width, for every i |
| NvhlsVector.VectorOp | cmod/include/nvhls_vector.h:210-315 | `vector_mul`/`vector_add`/`vector_sub` leave `out[i] = in1[i] op in2[i]` for every i, whatever `Unroll` is |
| NvhlsVector.VectorMac | cmod/include/nvhls_vector.h:462-475 | `out[i] = in1[i]*in2[i] + in3[i]`, truncated to the output width |
| NvhlsVector.MacIsMulThenAdd | cmod/include/nvhls_vector.h:210-475 | `vector_mac(a, b, c)` equals `vector_add(vector_mul(a, b), c)` at the same output width |
| NvhlsVector.SubUndoesAdd | cmod/include/nvhls_vector.h:258-315 | `vector_sub(vector_add(a, b), b)` gives back a when a fits the width |
| NvhlsVector.Reduction | cmod/include/nvhls_vector.h:350-368 | the sum of the elements modulo 2^width; a one-element vector is copied |
| NvhlsVector.SumStep | cmod/include/nvhls_vector.h:359-360 | adding one more element to the truncated running sum gives the truncated longer sum |
| NvhlsVector.DotStep | cmod/include/nvhls_vector.h:414-415 | adding one more product to the truncated accumulator gives the truncated longer dot product |
| NvhlsVector.DotProduct | cmod/include/nvhls_vector.h:406-425 | `dp` is the dot product modulo 2^width |
| NvhlsVector.DotProductAcc | cmod/include/nvhls_vector.h:488-502 | `dpacc` is in3 plus the dot product, modulo 2^width |
| NvhlsVector.DpaccIsDpPlusAcc | cmod/include/nvhls_vector.h:406-502 | `dpacc` is in3 plus the result of `dp` at the same width |
| NvhlsVector.DpIsReductionOfMul | cmod/include/nvhls_vector.h:210-425 | `dp` is the `reduction` of the `vector_mul` output when every product fits |
| NvhlsVector.MulApply | cmod/include/nvhls_vector.h:210-222 | a product that fits the output is not truncated |
| NvhlsVector.ElementwisePrefix | cmod/include/nvhls_vector.h:210-315 | an element-wise operation on a prefix is the prefix of its output |
| Comptrees.ElementAt | cmod/include/comptrees.h:81 | element i of a packed array is an ElemWidth-bit value |
| Comptrees.ElementFits | cmod/include/comptrees.h:78-81 | every whole element lies inside the packed array |
| Comptrees.Elements | cmod/include/comptrees.h:78-81 | `temp[i]` is bits [i*ElemWidth, (i+1)*ElemWidth) of the input, for every whole element |
| Comptrees.UnpackElements | cmod/include/comptrees.h:78-81 | the loop fills `temp` with the unpacked elements |
| Comptrees.Minmax | cmod/include/comptrees.h:73-121 | the index returned lies in [start, end] and holds a largest (is_max) or smallest element of that range |
| Comptrees.HalfWidth | cmod/include/comptrees.h:83-86 | the midpoint splits a range of Width elements into two halves of Width/2 |
| Comptrees.MinmaxOf | cmod/include/comptrees.h:75-94 | `minmax` over the packed input returns an extreme index of [start, end] |
| Comptrees.MinmaxTwo | cmod/include/comptrees.h:98-113 | Width 2 compares only start and end and returns start exactly when it wins |
| Comptrees.Concat | cmod/include/comptrees.h:136-174 | `concat(components, start, end)` is the components start..end laid end to end, components[start] lowest |
| Comptrees.ConcatLayout | cmod/include/comptrees.h:136-174 | component start+k sits at bits [k*ElemW, (k+1)*ElemW) of a result n*ElemW bits wide |
| Comptrees.UniformSizes | cmod/include/comptrees.h:136-174 | with every component ElemW wide, component k starts at k*ElemW and the whole is n*ElemW wide |
| Comptrees.UniformOffset | cmod/include/comptrees.h:136-174 | component k starts at k*ElemW |
| Comptrees.PriEnc | cmod/include/comptrees.h:202-233 | the first position in [start, end] whose bit equals comp_value, and -1 exactly when there is none |
| Comptrees.PriEncVal | cmod/include/comptrees.h:195-225 | the first position below Width whose bit equals comp_value, and -1 exactly when there is none |
| Scratchpad.BankSel | cmod/include/Scratchpad.h:155-156 | the bank of an address is its low NBANKS_LOG2 bits, a number below 2^NBANKS_LOG2 |
| Scratchpad.BankAddr | cmod/include/Scratchpad.h:174-175 | the in-bank address is the address above the bank bits, below 2^(ADDR_WIDTH-NBANKS_LOG2) |
| Scratchpad.AddressSplit | cmod/include/Scratchpad.h:155-175 | address = bank + 2^NBANKS_LOG2 * in-bank address |
| Scratchpad.AddressSplitInjective | cmod/include/Scratchpad.h:155-175 | two addresses of one width with the same bank and in-bank address are the same address |
| Scratchpad.LaneBanks | cmod/include/Scratchpad.h:159-160 | `bank_dst_lane[i]` is the bank of lane i's address, for every lane |
| Scratchpad.Scatter | cmod/include/Scratchpad.h:157 | `bank_src_lane` has one entry per bank; every entry is 0 or a lane number |
| Scratchpad.ScatterInverse | cmod/include/Scratchpad.h:157-169 | without bank conflicts, the entry of lane i's bank names lane i |
| Scratchpad.NoInjection | cmod/include/Scratchpad.h:162-169 | conflict-free lanes on m banks number at most m |
| Scratchpad.EveryBankTargeted | cmod/include/Scratchpad.h:152-169 | N conflict-free lanes on N banks reach every bank |
| Scratchpad.ScatterCovers | cmod/include/Scratchpad.h:157-160 | for every bank b, `bank_dst_lane[bank_src_lane[b]] == b` when the lanes are conflict-free |
| Scratchpad.ScatterStep | cmod/include/Scratchpad.h:157 | one loop step writes lane i into its bank's entry and leaves the others |
| Scratchpad.InputReqs | cmod/include/Scratchpad.h:172-177 | `input_reqs[i]` holds lane i's in-bank address, and its data word on a store |
| Scratchpad.Steer | cmod/include/Scratchpad.h:150-178 | the pre-processing loop produces `bank_src_lane`, `bank_dst_lane` and `input_reqs` as Scatter, LaneBanks and InputReqs define them |
| Scratchpad.BankAnswers | cmod/include/Scratchpad.h:184-196 | the bank loop yields one answer per bank |
| Scratchpad.Answered | cmod/include/Scratchpad.h:187-195 | a bank answers exactly when its request is valid and the operation is a load |
| Scratchpad.AnswerStep | cmod/include/Scratchpad.h:186-196 | bank b's answer is its word on a valid load and the zero word otherwise |
| Scratchpad.ScratchpadClass.constructor | cmod/include/Scratchpad.h:104-107 | ADDR_WIDTH = nbits(CAPACITY-1), NBANKS_LOG2 = nbits(N-1), CAPACITY/N words per bank |
| Scratchpad.ScratchpadClass.BankRequests | cmod/include/Scratchpad.h:180-182 | the request crossbar gives one request and valid bit per bank |
| Scratchpad.ScratchpadClass.RoutedLane | cmod/include/Scratchpad.h:157-182 | the lane routed to bank b addresses bank b |
| Scratchpad.ScratchpadClass.LaneOwnsBank | cmod/include/Scratchpad.h:157-182 | lane i's bank receives lane i's valid bit and in-bank address |
| Scratchpad.ScratchpadClass.LoadResponse | cmod/include/Scratchpad.h:198-204 | on a load lane i is valid iff it asked, and then carries the word at its bank and in-bank address; otherwise the zero word |
| Scratchpad.ScratchpadClass.LoadStore | cmod/include/Scratchpad.h:145-205 | a load leaves the banks unchanged and answers LoadResponse; a store writes every valid lane's word into its bank |
| Scratchpad.ScratchpadClass.RouteRequests | cmod/include/Scratchpad.h:180-182 | the request crossbar's outputs are BankRequests |
| Scratchpad.ScratchpadClass.BankArgs | cmod/include/Scratchpad.h:184-196 | every bank request is within its bank and every load reads a defined word |
| Scratchpad.ScratchpadClass.ExecuteBanks | cmod/include/Scratchpad.h:184-196 | the bank loop stores the valid words on a store, keeps the banks on a load, and returns BankAnswers and Answered |
| Scratchpad.ScratchpadClass.ExecuteBank | cmod/include/Scratchpad.h:187-195 | one bank: a valid load reads, a valid store writes, otherwise nothing changes and the valid bit is false |
| Scratchpad.ScratchpadClass.RouteResponses | cmod/include/Scratchpad.h:198-204 | the response crossbar and the valids copy produce LoadResponse |
| Scratchpad.ScratchpadClass.ResponseLanes | cmod/include/Scratchpad.h:198-204 | the routed responses, lane by lane, are LoadResponse |
| Scratchpad.ScratchpadClass.ResponseLane | cmod/include/Scratchpad.h:198-200 | lane i receives its own bank's answer |
| Scratchpad.ScratchpadClass.Store | cmod/include/Scratchpad.h:132-136 | `store` is load_store with the opcode forced to STORE |
| Scratchpad.ScratchpadClass.Load | cmod/include/Scratchpad.h:138-143 | `load` leaves the banks unchanged and returns the load response of the request as a load |
| Scratchpad.ScratchpadClass.StoreReadsBack | cmod/include/Scratchpad.h:186-192 | after a store, the word at a valid lane's bank and in-bank address is that lane's data |
| Scratchpad.ScratchpadClass.StoreKeepsOthers | cmod/include/Scratchpad.h:186-195 | a store leaves every word no valid lane addresses unchanged |
| Scratchpad.ScratchpadClass.StoreArgs | cmod/include/Scratchpad.h:189-191 | the bank requests of a store meet mem_array's write bounds |
| ArbitratedScratchpad.PowerOfTwoTest | cmod/include/ArbitratedScratchpad.h:68 | `(NumBanks & (NumBanks - 1)) == 0` holds exactly when NumBanks is a power of two |
| ArbitratedScratchpad.Log2Banks | cmod/include/ArbitratedScratchpad.h:65 | `log2_nbanks` is at least 1 and 2^log2_nbanks covers every bank |
| ArbitratedScratchpad.Log2BanksBracket | cmod/include/ArbitratedScratchpad.h:65 | above one bank, 2^(log2_nbanks-1) <= NumBanks-1 < 2^log2_nbanks |
| ArbitratedScratchpad.Log2BanksExact | cmod/include/ArbitratedScratchpad.h:65-68 | for a power of two above 1, 2^log2_nbanks is exactly NumBanks |
| ArbitratedScratchpad.BankBySize | cmod/include/ArbitratedScratchpad.h:126-130 | above one bank, the selected bank is below NumBanks |
| ArbitratedScratchpad.SliceSplit | cmod/include/ArbitratedScratchpad.h:127-140 | the low l bits of an address are its value mod 2^l and the bits above it the quotient |
| ArbitratedScratchpad.SplitPow2 | cmod/include/ArbitratedScratchpad.h:126-140 | for a power-of-two bank count the bit slices are `addr % NumBanks` and `addr / NumBanks`, and the latter fits `bank_addr_t` |
| ArbitratedScratchpad.SplitOther | cmod/include/ArbitratedScratchpad.h:141-142 | for other bank counts `addr / NumBanks` fits in `bank_addr_width` bits |
| ArbitratedScratchpad.BankOf | cmod/include/ArbitratedScratchpad.h:122-131 | corrected one-bank split: the bank of a lane is below NumBanks |
| ArbitratedScratchpad.AddressSplit | cmod/include/ArbitratedScratchpad.h:122-143 | bank = addr % NumBanks, in-bank address = addr / NumBanks, and together they give back the address |
| ArbitratedScratchpad.AddressSplitInjective | cmod/include/ArbitratedScratchpad.h:122-143 | two addresses with the same bank and in-bank address are equal |
| ArbitratedScratchpad.OneBankMisroutes | cmod/include/ArbitratedScratchpad.h:126-127 | with one bank and two inputs the code as written selects bank 1 for address 1 |
| ArbitratedScratchpad.OneInputAliases | cmod/include/ArbitratedScratchpad.h:123-137 | with one input and four banks the code as written maps addresses 0 and 4 to the same bank and in-bank address |
| ArbitratedScratchpad.CorrectedAgrees | cmod/include/ArbitratedScratchpad.h:122-143 | above one bank and one input the corrected bank and in-bank address equal the ones written |
| ArbitratedScratchpad.LaneRequest | cmod/include/ArbitratedScratchpad.h:132-152 | with the corrected one-bank split: `do_store` iff the lane is valid and STORE, the in-bank address, the data on a store, and the lane number |
| ArbitratedScratchpad.LaneRequests | cmod/include/ArbitratedScratchpad.h:118-156 | one LaneRequest per input |
| ArbitratedScratchpad.LaneBanks | cmod/include/ArbitratedScratchpad.h:122-131 | corrected one-bank split: `bank_sel` of every lane is its bank, below NumBanks |
| ArbitratedScratchpad.ComputeBankRequest | cmod/include/ArbitratedScratchpad.h:114-157 | with the corrected one-bank split, the lane loop fills `bank_req`, `bank_sel` and `bank_req_valid` as LaneRequests, LaneBanks and the lane valids |
| ArbitratedScratchpad.StoreEnables | cmod/include/ArbitratedScratchpad.h:164-169 | a bank writes iff its winner is valid and a store |
| ArbitratedScratchpad.LoadAnswered | cmod/include/ArbitratedScratchpad.h:164-174 | `bank_rsp[bank].valid` iff the winner is valid and a load |
| ArbitratedScratchpad.LoadAnswers | cmod/include/ArbitratedScratchpad.h:165-167 | a loading bank's `rdata` is the word its winner addresses |
| ArbitratedScratchpad.Stored | cmod/include/ArbitratedScratchpad.h:168-169 | the bank loop's stores keep the banks' shape |
| ArbitratedScratchpad.StoresKeepDefined | cmod/include/ArbitratedScratchpad.h:163-175 | a word that holds data still does after the bank loop |
| ArbitratedScratchpad.BankStep | cmod/include/ArbitratedScratchpad.h:163-175 | bank b's load reads the word as it was before the loop, its store writes its word, and the answers grow by bank b's |
| ArbitratedScratchpad.SourceOf | cmod/include/ArbitratedScratchpad.h:249-255 | the bank recorded for lane i is the last answering bank whose winner came from lane i, or none exists |
| ArbitratedScratchpad.SelStep | cmod/include/ArbitratedScratchpad.h:252-255 | one bank of the loop sets `source` and `valid_src` of its winner's lane and nothing else |
| ArbitratedScratchpad.Responses | cmod/include/ArbitratedScratchpad.h:243-265 | lane i is valid iff some answering bank's winner came from lane i, then carries that bank's word; otherwise zero |
| ArbitratedScratchpad.RouteResponses | cmod/include/ArbitratedScratchpad.h:243-265 | the source loop, response crossbar and copy produce Responses |
| ArbitratedScratchpad.View | cmod/include/ArbitratedScratchpad.h:212-213 | the crossbar sees one request per lane: queue heads, or the lanes' requests without queues |
| ArbitratedScratchpad.GrantsOf | cmod/include/ArbitratedScratchpad.h:212-213 | one grant per bank |
| ArbitratedScratchpad.ArbitrationParts | cmod/include/ArbitratedScratchpad.h:210-213 | the request crossbar forwards granted requests, moves the pointers, consumes granted queue heads, and reports ready |
| ArbitratedScratchpad.LaneGood | cmod/include/ArbitratedScratchpad.h:114-157 | a valid lane's own request addresses a word of its bank |
| ArbitratedScratchpad.AcceptedGood | cmod/include/ArbitratedScratchpad.h:212-213 | every request in the input queues after the input stage addresses a word of its bank |
| ArbitratedScratchpad.ViewGood | cmod/include/ArbitratedScratchpad.h:212-213 | what the crossbar sees of a valid lane addresses a word of its bank |
| ArbitratedScratchpad.WinnerGood | cmod/include/ArbitratedScratchpad.h:210-213 | a valid winner of bank b is the request the granted lane presented, addressed to bank b |
| ArbitratedScratchpad.WinnersGood | cmod/include/ArbitratedScratchpad.h:210-233 | the bank loop can execute every winner |
| ArbitratedScratchpad.GrantedWinner | cmod/include/ArbitratedScratchpad.h:210-213 | the bank that grants lane i forwards lane i's request |
| ArbitratedScratchpad.AnsweringBank | cmod/include/ArbitratedScratchpad.h:249-256 | a bank answering lane i is the bank of lane i's granted load |
| ArbitratedScratchpad.ResponseSource | cmod/include/ArbitratedScratchpad.h:243-265 | a valid response to lane i comes from lane i's granted load |
| ArbitratedScratchpad.GrantedLoadAnswered | cmod/include/ArbitratedScratchpad.h:243-265 | a granted load gets a valid response |
| ArbitratedScratchpad.LoadServed | cmod/include/ArbitratedScratchpad.h:184-266 | lane i's response is valid iff its request is a granted load, then carries the addressed word as before the call; zero otherwise |
| ArbitratedScratchpad.StoreLands | cmod/include/ArbitratedScratchpad.h:168-169 | after a granted store, the word it addresses reads back as its data |
| ArbitratedScratchpad.OnlyStoresWrite | cmod/include/ArbitratedScratchpad.h:163-175 | a word that changes was the target of a granted store |
| ArbitratedScratchpad.StaysGood | cmod/include/ArbitratedScratchpad.h:163-175 | a servable request stays servable through the bank loop |
| ArbitratedScratchpad.QueuesStayGood | cmod/include/ArbitratedScratchpad.h:184-266 | after a call every queued request is still servable |
| ArbitratedScratchpad.DirectView | cmod/include/ArbitratedScratchpad.h:111-112 | without input queues the crossbar sees each lane's own request |
| ArbitratedScratchpad.DirectLoad | cmod/include/ArbitratedScratchpad.h:184-266 | without input queues, a load is answered iff valid and accepted, with the word at its bank and in-bank address |
| ArbitratedScratchpad.DirectStore | cmod/include/ArbitratedScratchpad.h:184-266 | without input queues, an accepted store reads back at its bank and in-bank address |
| ArbitratedScratchpad.IdleStaysIdle | cmod/include/ArbitratedScratchpad.h:111-112 | with output queue length 0 the output queues stay empty |
| ArbitratedScratchpad.ArbitratedScratchpadClass.constructor | cmod/include/ArbitratedScratchpad.h:64-69 | for any NumInputs from 1, the parameters as given, `addr_width = nbits(Capacity-1)`, empty input queues and reset arbiters |
| ArbitratedScratchpad.ArbitratedScratchpadClass.NewParts | cmod/include/ArbitratedScratchpad.h:107-112 | banks of Capacity/NumBanks words and a crossbar with InputQueueLen input slots and no output queue |
| ArbitratedScratchpad.ArbitratedScratchpadClass.Reset | cmod/include/ArbitratedScratchpad.h:181 | `reset` empties the queues and resets the arbiters; the banks keep their words |
| ArbitratedScratchpad.ArbitratedScratchpadClass.LoadBank | cmod/include/ArbitratedScratchpad.h:167 | a bank read returns the addressed word |
| ArbitratedScratchpad.ArbitratedScratchpadClass.StoreBank | cmod/include/ArbitratedScratchpad.h:169 | a bank write replaces exactly the addressed word |
| ArbitratedScratchpad.ArbitratedScratchpadClass.BanksLoadStore | cmod/include/ArbitratedScratchpad.h:159-176 | the banks become Stored and the answers are LoadAnswered and LoadAnswers of the old banks |
| ArbitratedScratchpad.ArbitratedScratchpadClass.RunXbar | cmod/include/ArbitratedScratchpad.h:210-213 | `request_xbar.run` is the crossbar step with no output queues |
| ArbitratedScratchpad.ArbitratedScratchpadClass.Serve | cmod/include/ArbitratedScratchpad.h:232-265 | the banks execute the winners and each answer reaches the lane it came from |
| ArbitratedScratchpad.ArbitratedScratchpadClass.Arbitrate | cmod/include/ArbitratedScratchpad.h:190-213 | the winners, their valids, ready, the new queues and pointers are those of Arbitration |
| ArbitratedScratchpad.ArbitratedScratchpadClass.LoadStore | cmod/include/ArbitratedScratchpad.h:184-266 | `load_store` leaves the banks, queues and pointers and returns the response and ready as LoadStoreStep |
| ArbitratedScratchpadDP.AddressWiderThanBank | cmod/include/ArbitratedScratchpadDP.h:63-69 | with several banks `kAddressSize` exceeds `kBankIndexSize`, so the local-index slice is non-empty |
| ArbitratedScratchpadDP.GetBankIndex | cmod/include/ArbitratedScratchpadDP.h:226-232 | the bank index fits `kBankIndexSize` bits |
| ArbitratedScratchpadDP.GetLocalIndex | cmod/include/ArbitratedScratchpadDP.h:234-240 | the local index fits `kLocalIndexSize` bits |
| ArbitratedScratchpadDP.OneBankAddress | cmod/include/ArbitratedScratchpadDP.h:227-236 | with one bank every address is in bank 0 at its own value |
| ArbitratedScratchpadDP.IndexWidthPow2 | cmod/include/ArbitratedScratchpadDP.h:63-69 | `index_width` of 2^k is k |
| ArbitratedScratchpadDP.PowerWidths | cmod/include/ArbitratedScratchpadDP.h:63-69 | with 2^p banks of 2^q entries the widths are p, q and p+q |
| ArbitratedScratchpadDP.AddressSplitPow2 | cmod/include/ArbitratedScratchpadDP.h:226-240 | with power-of-two sizes bank = addr mod banks, local index = addr / banks, both in range, and they give back the address |
| ArbitratedScratchpadDP.ReadRequests | cmod/include/ArbitratedScratchpadDP.h:124-128 | `bankread_req[i].localindex` is the local index of read address i |
| ArbitratedScratchpadDP.WriteRequests | cmod/include/ArbitratedScratchpadDP.h:139-144 | `bankwrite_req[i]` holds the local index of write address i and write data i |
| ArbitratedScratchpadDP.BankSels | cmod/include/ArbitratedScratchpadDP.h:125-140 | every port's selected bank is the bank index of its address |
| ArbitratedScratchpadDP.ComputeBankReadRequest | cmod/include/ArbitratedScratchpadDP.h:117-129 | the lane loop yields ReadRequests, BankSels and the port valids |
| ArbitratedScratchpadDP.ComputeBankWriteRequest | cmod/include/ArbitratedScratchpadDP.h:131-145 | the lane loop yields WriteRequests, BankSels and the port valids |
| ArbitratedScratchpadDP.ArbPtrs | cmod/include/ArbitratedScratchpadDP.h:114-115 | a crossbar step without queues keeps one arbiter pointer per bank, each in range |
| ArbitratedScratchpadDP.ArbFacts | cmod/include/ArbitratedScratchpadDP.h:299-300 | a crossbar without queues grants each bank at most one valid port naming it, reports ready exactly the granted ports, and grants a bank some valid port names |
| ArbitratedScratchpadDP.Acks | cmod/include/ArbitratedScratchpadDP.h:304-319 | `read_ack[i] = read_done[i] && read_req_valid[i]`, and the same for writes |
| ArbitratedScratchpadDP.Readies | cmod/include/ArbitratedScratchpadDP.h:305 | `read_ready[i] = read_done[i] \|\| !read_req_valid[i]` |
| ArbitratedScratchpadDP.AckLoop | cmod/include/ArbitratedScratchpadDP.h:302-306 | the acknowledgement loop computes Acks and Readies |
| ArbitratedScratchpadDP.KeptAcks | cmod/include/ArbitratedScratchpadDP.h:320-328 | a read ack survives exactly when no single-port bank dropped that port's read |
| ArbitratedScratchpadDP.KeptReads | cmod/include/ArbitratedScratchpadDP.h:320-328 | a read winner survives unless the bank is single-port and also has a write winner |
| ArbitratedScratchpadDP.DropReads | cmod/include/ArbitratedScratchpadDP.h:320-328 | the single-port drop loop yields KeptReads and KeptAcks |
| ArbitratedScratchpadDP.EntryWord | cmod/include/ArbitratedScratchpadDP.h:163-166 | a read of a flagged entry returns the word held there, of an unflagged entry zero; only the entry read must hold a value |
| ArbitratedScratchpadDP.Answered | cmod/include/ArbitratedScratchpadDP.h:156-219 | a bank answers iff it has a read winner and is not a single-port bank with a write winner |
| ArbitratedScratchpadDP.Answers | cmod/include/ArbitratedScratchpadDP.h:156-219 | one word of the word width per bank |
| ArbitratedScratchpadDP.Written | cmod/include/ArbitratedScratchpadDP.h:172-195 | the bank loop's writes keep the banks' shape |
| ArbitratedScratchpadDP.WrittenWord | cmod/include/ArbitratedScratchpadDP.h:172-195 | a bank's write winner's data is at its entry after the loop |
| ArbitratedScratchpadDP.WrittenElsewhere | cmod/include/ArbitratedScratchpadDP.h:172-195 | every other word is kept by the loop |
| ArbitratedScratchpadDP.BankStep | cmod/include/ArbitratedScratchpadDP.h:155-220 | a bank that reads its memory (answered, flagged, not forwarded) sees its entry as before the loop, and then writes |
| ArbitratedScratchpadDP.PortOutputs | cmod/include/ArbitratedScratchpadDP.h:349-363 | a port's output is valid iff its read was acked and its bank answered, then carries that bank's word; otherwise it keeps its old value |
| ArbitratedScratchpadDP.ResponseXbar | cmod/include/ArbitratedScratchpadDP.h:336-363 | the response crossbar and copy loops compute PortOutputs |
| ArbitratedScratchpadDP.Arbitration | cmod/include/ArbitratedScratchpadDP.h:295-328 | the surviving read winners and the write winners meet the banks' needs and acked reads name existing banks |
| ArbitratedScratchpadDP.RunResult | cmod/include/ArbitratedScratchpadDP.h:273-363 | one call keeps the banks' shape and gives one ack, ready and output per port |
| ArbitratedScratchpadDP.WriteWinners | cmod/include/ArbitratedScratchpadDP.h:314-319 | a bank has a write winner iff some write port is acked for it, and that port's data and entry are the winner |
| ArbitratedScratchpadDP.ReadWinners | cmod/include/ArbitratedScratchpadDP.h:299-305 | the same for reads before the single-port drop |
| ArbitratedScratchpadDP.ReadReady | cmod/include/ArbitratedScratchpadDP.h:305 | `read_ready[i]` holds for an idle port and for a port its bank granted |
| ArbitratedScratchpadDP.ReadAckIff | cmod/include/ArbitratedScratchpadDP.h:299-328 | a read is acked iff it is valid, granted, and its bank is not a single-port bank taken by a write |
| ArbitratedScratchpadDP.ReadServed | cmod/include/ArbitratedScratchpadDP.h:349-363 | a port's read output is valid iff its read is acked; otherwise it keeps its old output |
| ArbitratedScratchpadDP.StoreForwarding | cmod/include/ArbitratedScratchpadDP.h:161-162 | with store forwarding on a dual-port bank, an acked read of the entry an acked write writes returns the written data |
| ArbitratedScratchpadDP.ReadPortsDefined | cmod/include/ArbitratedScratchpadDP.h:156-219 | the banks' reads are defined when every valid read port of an existing bank whose entry is flagged addresses a word holding a value; unflagged, forwarded and losing reads need nothing |
| ArbitratedScratchpadDP.WriteOnlyCallOk | cmod/include/ArbitratedScratchpadDP.h:253-272 | a call without valid reads can be made whatever the banks hold, including by the ten-argument `run` on a fresh scratchpad |
| ArbitratedScratchpadDP.ReadFromBank | cmod/include/ArbitratedScratchpadDP.h:161-167 | without forwarding, an acked read returns the entry's word before the call if flagged (that word then holds a value), else zero |
| ArbitratedScratchpadDP.WritesLand | cmod/include/ArbitratedScratchpadDP.h:172-195 | after the call an acked write's entry holds its data |
| ArbitratedScratchpadDP.OnlyAckedWritesChange | cmod/include/ArbitratedScratchpadDP.h:155-220 | an entry no acked write addresses keeps its word |
| ArbitratedScratchpadDP.OneWritePerBank | cmod/include/ArbitratedScratchpadDP.h:314-319 | each bank acks at most one write port per call |
| ArbitratedScratchpadDP.OneReadPerBank | cmod/include/ArbitratedScratchpadDP.h:299-305 | each bank acks at most one read port per call |
| ArbitratedScratchpadDP.WritesProgress | cmod/include/ArbitratedScratchpadDP.h:314-319 | a bank some valid write port addresses acks one write to it |
| ArbitratedScratchpadDP.ReadsProgress | cmod/include/ArbitratedScratchpadDP.h:299-328 | a bank some valid read port addresses acks one read, unless it is a single-port bank taking a write |
| ArbitratedScratchpadDP.AllFlagged | cmod/include/ArbitratedScratchpadDP.h:260-264 | `valid_entry[i] = ~0` flags every entry of every bank |
| ArbitratedScratchpadDP.FlagAll | cmod/include/ArbitratedScratchpadDP.h:261-264 | the loop fills `valid_entry` as AllFlagged |
| ArbitratedScratchpadDP.EntriesPerBank | cmod/include/ArbitratedScratchpadDP.h:113 | `kNumBanks * kEntriesPerBank` words over kNumBanks banks leaves kEntriesPerBank per bank |
| ArbitratedScratchpadDP.ArbitratedScratchpadDPClass.constructor | cmod/include/ArbitratedScratchpadDP.h:113-115 | the given geometry, fresh banks, every arbiter reset and every word undefined |
| ArbitratedScratchpadDP.ArbitratedScratchpadDPClass.NewBanks | cmod/include/ArbitratedScratchpadDP.h:113 | fresh banks that start with every word undefined |
| ArbitratedScratchpadDP.ArbitratedScratchpadDPClass.LoadBank | cmod/include/ArbitratedScratchpadDP.h:164 | a bank read returns the addressed word |
| ArbitratedScratchpadDP.ArbitratedScratchpadDPClass.StoreBank | cmod/include/ArbitratedScratchpadDP.h:173 | a bank write replaces exactly the addressed word |
| ArbitratedScratchpadDP.ArbitratedScratchpadDPClass.BanksLoadStore | cmod/include/ArbitratedScratchpadDP.h:148-221 | the banks become Written and the responses are Answered and Answers of the old banks |
| ArbitratedScratchpadDP.ArbitratedScratchpadDPClass.ServeBank | cmod/include/ArbitratedScratchpadDP.h:156-219 | one bank of the loop: its write next and its answer as Answers says |
| ArbitratedScratchpadDP.ArbitratedScratchpadDPClass.Arbitrate | cmod/include/ArbitratedScratchpadDP.h:282-328 | both arbitrations, the acks and the single-port drop, with the new arbiter pointers |
| ArbitratedScratchpadDP.ArbitratedScratchpadDPClass.Run | cmod/include/ArbitratedScratchpadDP.h:273-363 | the eleven-argument `run` leaves the banks, pointers, acks, readies and outputs as RunResult |
| ArbitratedScratchpadDP.ArbitratedScratchpadDPClass.RunAllFlagged | cmod/include/ArbitratedScratchpadDP.h:253-272 | the ten-argument `run` is RunResult with every entry flagged |
| BufferedPorts.Fired | cmod/include/nvhls_connections_buffered_ports.h:263-276 | the messages of completed handshakes, in order, at most one per cycle |
| BufferedPorts.FiredSnoc | cmod/include/nvhls_connections_buffered_ports.h:263-276 | one more cycle adds its message exactly when `val && rdy` |
| BufferedPorts.ChannelTrace | cmod/include/nvhls_connections_buffered_ports.h:856-884 | a cycle keeps the channel invariant: accepted messages = delivered messages followed by held messages |
| BufferedPorts.HeldStep | cmod/include/nvhls_connections_buffered_ports.h:256-277 | the invariant survives one accept-and-deliver step |
| BufferedPorts.Count | cmod/include/nvhls_connections_buffered_ports.h:549 | a ring holds at most NumEntries messages, and exactly NumEntries iff `full` |
| BufferedPorts.Queue | cmod/include/nvhls_connections_buffered_ports.h:796 | the queue the ring holds is the slots from `tail` on, oldest first |
| BufferedPorts.Empty | cmod/include/nvhls_connections_buffered_ports.h:549 | `empty = !full && head == tail` holds iff the ring holds no message |
| BufferedPorts.HeadAfterQueue | cmod/include/nvhls_connections_buffered_ports.h:805-817 | `head` is the slot after the newest message |
| BufferedPorts.EnqRdy | cmod/include/nvhls_connections_buffered_ports.h:239 | `enq.rdy` is the negation of `full` |
| BufferedPorts.DoDeq | cmod/include/nvhls_connections_buffered_ports.h:590-603 | a message leaves iff `deq.rdy` and the ring is not empty |
| BufferedPorts.HeadNext | cmod/include/nvhls_connections_buffered_ports.h:573-587 | head advances modulo NumEntries exactly when a message is written |
| BufferedPorts.TailNext | cmod/include/nvhls_connections_buffered_ports.h:590-603 | tail advances modulo NumEntries exactly when a message leaves |
| BufferedPorts.FullNext | cmod/include/nvhls_connections_buffered_ports.h:606-624 | full is set by a write without a read that makes `head_inc` reach the tail, cleared by a read while full, otherwise kept |
| BufferedPorts.Store | cmod/include/nvhls_connections_buffered_ports.h:652-655 | the message is written to slot `head` when enqueued; every other slot is kept |
| BufferedPorts.RingQueueStep | cmod/include/nvhls_connections_buffered_ports.h:627-659 | the ring is a FIFO: a read drops the oldest message, a write appends the new one, and the registers stay consistent |
| BufferedPorts.RingNextCount | cmod/include/nvhls_connections_buffered_ports.h:836-853 | the count moves by one per write and per read |
| BufferedPorts.TailShift | cmod/include/nvhls_connections_buffered_ports.h:820-833 | after a read, entry k sits where entry k+1 sat |
| BufferedPorts.BufferDoEnq | cmod/include/nvhls_connections_buffered_ports.h:806 | `Buffer` writes iff `enq.val && !full` |
| BufferedPorts.BufferDeqVal | cmod/include/nvhls_connections_buffered_ports.h:784-788 | `Buffer` `deq.val` iff the buffer holds a message |
| BufferedPorts.BufferDeqMsg | cmod/include/nvhls_connections_buffered_ports.h:790-802 | `Buffer` `deq.msg` is the oldest message, or 0 when empty |
| BufferedPorts.BufferStep | cmod/include/nvhls_connections_buffered_ports.h:781-884 | one `Buffer` cycle offers the oldest message, drops it when delivered and appends the accepted message; no bypass |
| BufferedPorts.BypassDoEnq | cmod/include/nvhls_connections_buffered_ports.h:575-577 | `BypassBuffered` stores an accepted message unless it bypasses an empty buffer with `deq.rdy` |
| BufferedPorts.BypassDeqVal | cmod/include/nvhls_connections_buffered_ports.h:548-552 | `BypassBuffered` offers a message iff one is stored or one arrives |
| BufferedPorts.BypassDeqMsg | cmod/include/nvhls_connections_buffered_ports.h:554-571 | `BypassBuffered` `deq.msg` is the oldest stored message, else the incoming one |
| BufferedPorts.BypassBufferedStep | cmod/include/nvhls_connections_buffered_ports.h:545-659 | one `BypassBuffered` cycle behaves as a FIFO that accepts before it delivers |
| BufferedPorts.BypassBufferedPassThrough | cmod/include/nvhls_connections_buffered_ports.h:553-587 | with the buffer empty and `deq.rdy`, the incoming message goes straight to `deq.msg` and nothing is stored |
| BufferedPorts.WriteEn | cmod/include/nvhls_connections_buffered_ports.h:234-236 | the state register is written only on an arriving message while empty |
| BufferedPorts.BypassOneDeqVal | cmod/include/nvhls_connections_buffered_ports.h:242-244 | `Bypass` `deq.val` iff full or a message arrives |
| BufferedPorts.BypassMux | cmod/include/nvhls_connections_buffered_ports.h:247-253 | `deq.msg` is the stored state when full, else `enq.msg` |
| BufferedPorts.BypassFullNext | cmod/include/nvhls_connections_buffered_ports.h:265-269 | full is cleared by `deq.rdy`, set on `enq.val && !deq.rdy && !full`, and otherwise kept |
| BufferedPorts.BypassQueue | cmod/include/nvhls_connections_buffered_ports.h:204-205 | a `Bypass` holds one message exactly when full |
| BufferedPorts.BypassStep | cmod/include/nvhls_connections_buffered_ports.h:234-277 | one `Bypass` cycle behaves as a one-entry FIFO that accepts before it delivers |
| BufferedPorts.Buffer.constructor | cmod/include/nvhls_connections_buffered_ports.h:742-776 | NumEntries slots, registers reset, nothing held |
| BufferedPorts.Buffer.Reset | cmod/include/nvhls_connections_buffered_ports.h:857-863 | registers cleared and every slot reset |
| BufferedPorts.Buffer.Cycle | cmod/include/nvhls_connections_buffered_ports.h:781-884 | one clock: outputs from the old registers, new registers and slots as the next-state functions say, and the channel step |
| BufferedPorts.Buffer.Seq | cmod/include/nvhls_connections_buffered_ports.h:856-884 | over any run, accepted messages = delivered messages followed by held messages |
| BufferedPorts.BypassBuffered.constructor | cmod/include/nvhls_connections_buffered_ports.h:506-540 | NumEntries slots, registers reset, nothing held |
| BufferedPorts.BypassBuffered.Reset | cmod/include/nvhls_connections_buffered_ports.h:628-634 | registers cleared and every slot reset |
| BufferedPorts.BypassBuffered.Cycle | cmod/include/nvhls_connections_buffered_ports.h:545-659 | one clock of `BypassBuffered`, with the channel step |
| BufferedPorts.BypassBuffered.Seq | cmod/include/nvhls_connections_buffered_ports.h:627-659 | over any run, accepted messages = delivered messages followed by held messages |
| BufferedPorts.Bypass.Contents | cmod/include/nvhls_connections_buffered_ports.h:204-205 | a `Bypass` holds at most one message |
| BufferedPorts.Bypass.constructor | cmod/include/nvhls_connections_buffered_ports.h:257-259 | reset: not full, state 0 |
| BufferedPorts.Bypass.Cycle | cmod/include/nvhls_connections_buffered_ports.h:234-277 | one clock of `Bypass`, with the channel step |
| BufferedPorts.Bypass.Seq | cmod/include/nvhls_connections_buffered_ports.h:256-277 | over any run, accepted messages = delivered messages followed by held messages |
| BufferedPorts.InBuffered.constructor | cmod/include/nvhls_connections_buffered_ports.h:38-40 | an empty FIFO of BufferSize entries |
| BufferedPorts.InBuffered.Reset | cmod/include/nvhls_connections_buffered_ports.h:42-45 | the FIFO is emptied |
| BufferedPorts.InBuffered.Empty | cmod/include/nvhls_connections_buffered_ports.h:48 | true iff no message is buffered |
| BufferedPorts.InBuffered.Peek | cmod/include/nvhls_connections_buffered_ports.h:54 | the oldest buffered message |
| BufferedPorts.InBuffered.Pop | cmod/include/nvhls_connections_buffered_ports.h:50 | returns and removes the oldest buffered message |
| BufferedPorts.InBuffered.IncrHead | cmod/include/nvhls_connections_buffered_ports.h:52 | removes the oldest buffered message |
| BufferedPorts.InBuffered.PopNB | cmod/include/nvhls_connections_buffered_ports.h:60 | takes the first offered message, or reports none |
| BufferedPorts.InBuffered.TransferNB | cmod/include/nvhls_connections_buffered_ports.h:56-64 | moves one offered message into the FIFO exactly when it has room and one is offered; FIFO followed by channel is unchanged |
| BufferedPorts.OutBuffered.constructor | cmod/include/nvhls_connections_buffered_ports.h:72-74 | an empty FIFO of BufferSize entries |
| BufferedPorts.OutBuffered.Reset | cmod/include/nvhls_connections_buffered_ports.h:76-79 | the FIFO is emptied |
| BufferedPorts.OutBuffered.Full | cmod/include/nvhls_connections_buffered_ports.h:82 | true iff BufferSize messages are buffered |
| BufferedPorts.OutBuffered.Empty | cmod/include/nvhls_connections_buffered_ports.h:84 | true iff no message is buffered |
| BufferedPorts.OutBuffered.NumAvailable | cmod/include/nvhls_connections_buffered_ports.h:86 | the number of free FIFO entries |
| BufferedPorts.OutBuffered.Push | cmod/include/nvhls_connections_buffered_ports.h:88 | appends the message to the FIFO |
| BufferedPorts.OutBuffered.PushNB | cmod/include/nvhls_connections_buffered_ports.h:93 | the channel takes the message iff the receiver is ready |
| BufferedPorts.OutBuffered.TransferNB | cmod/include/nvhls_connections_buffered_ports.h:90-97 | the oldest message leaves the FIFO exactly when the channel takes it; sent followed by FIFO is unchanged |
| Serdes.Resize | cmod/include/nvhls_serdes.h:676 | a cast to n bits keeps the low bits and zero-fills above |
| Serdes.Slice | cmod/include/nvhls_serdes.h:123 | `get_slc<W>(x, lo)` is the W bits from lo, zeros past the top |
| Serdes.Place | cmod/include/nvhls_serdes.h:412-413 | `set_slc(x, y, lo)` writes y from bit lo and keeps every other bit; bits past the top are dropped |
| Serdes.Low | cmod/include/nvhls_serdes.h:676 | every bit from n up is cleared, the rest kept |
| Serdes.CDiv | cmod/include/nvhls_serdes.h:79 | C++ integer division truncates toward zero |
| Serdes.CMod | cmod/include/nvhls_serdes.h:79 | C++ `%` satisfies a = (a/b)·b + a%b |
| Serdes.NumFlitsCeiling | cmod/include/nvhls_serdes.h:78-79 | when the data does not fit in the head flit, `num_flits` is the least count of flit-wide slices that reach the top of the data after the head flit's share |
| Serdes.StoreForwardKind | cmod/include/nvhls_serdes.h:110-121 | SNGL for a one-flit packet, else HEAD, BODY..., TAIL: header iff first, tail iff last |
| Serdes.StoreForwardFlits | cmod/include/nvhls_serdes.h:107-125 | one flit per index, each the slice at i·flit_width with the packet's dest and id |
| Serdes.SliceCount | cmod/include/nvhls_serdes.h:259 | the least number of flit-wide slices that cover the data |
| Serdes.SerializeStoreForward | cmod/include/nvhls_serdes.h:97-129 | with the corrected flit count (SliceCount), the store-and-forward loop pushes StoreForwardFlits, one per slice |
| Serdes.Reassemble | cmod/include/nvhls_serdes.h:412-429 | the entry keeps its width while flits are placed at `num_flits_received`·flit_width |
| Serdes.ReassembleSlices | cmod/include/nvhls_serdes.h:412-429 | bit k of a reassembled entry comes from the last flit whose slice covers k |
| Serdes.StoreForwardRoundTrip | cmod/include/nvhls_serdes.h:388-445 | with the data a whole number of flits wide, reassembling the serializer's flits gives back the data, whatever the entry held |
| Serdes.StoreForwardAsWrittenDropsBits | cmod/include/nvhls_serdes.h:78-113 | as written, 16 data bits in 8-bit flits with no dest go out as one SNGL flit carrying only the low 8 bits |
| Serdes.HeaderBits | cmod/include/nvhls_serdes.h:176 | `header_data_width = flit width - dest width` |
| Serdes.DataFlits | cmod/include/nvhls_serdes.h:178 | the wormhole `num_flits` is at least 1 |
| Serdes.DataFlitsBounds | cmod/include/nvhls_serdes.h:178 | the data flits' slices reach the top of the data and the last one starts below it |
| Serdes.DataOffset | cmod/include/nvhls_serdes.h:206-213 | data flit m starts inside the packet data |
| Serdes.WormHoleFlit | cmod/include/nvhls_serdes.h:184-220 | flit 0 is HEAD, the last data flit TAIL, the rest BODY; every flit is flit-wide and carries the packet id |
| Serdes.WormHoleFlits | cmod/include/nvhls_serdes.h:184-220 | a packet goes out as HEAD then `num_flits` data flits |
| Serdes.FlitStream | cmod/include/nvhls_serdes.h:184-220 | a run of packets goes out packet after packet |
| Serdes.DataFlitSlice | cmod/include/nvhls_serdes.h:201-216 | each data flit carries the data slice at its offset |
| Serdes.HeadFlitLayout | cmod/include/nvhls_serdes.h:193-200 | the HEAD flit carries dest in its low bits and the first header bits of the data above |
| Serdes.WormHoleSerializer.constructor | cmod/include/nvhls_serdes.h:187-189 | reset: no packet in progress |
| Serdes.WormHoleSerializer.Step | cmod/include/nvhls_serdes.h:190-217 | with `num` at 0 the next packet is taken and its HEAD sent; otherwise data flit `num`, back to 0 after the TAIL |
| Serdes.WormHoleSerializer.Process | cmod/include/nvhls_serdes.h:184-220 | over any run of packets the flits pushed are FlitStream |
| Serdes.NoIdFlit | cmod/include/nvhls_serdes.h:264-300 | flit 0 is the header, the last data flit the tail; no dest or id fields |
| Serdes.NoIdFlits | cmod/include/nvhls_serdes.h:264-300 | HEAD then `num_flits` data flits |
| Serdes.SerializeNoId | cmod/include/nvhls_serdes.h:264-300 | the loop body pushes NoIdFlits |
| Serdes.ReassembleSameData | cmod/include/nvhls_serdes.h:426-429 | reassembly depends only on the flits' data |
| Serdes.NoIdRoundTrip | cmod/include/nvhls_serdes.h:264-300 | the HEAD's low bits are dest and the data flits rebuild the packet data |
| Serdes.DeserializeStep | cmod/include/nvhls_serdes.h:668-684 | a tail flit pushes a packet and clears the count and data; a header sets dest and the header bits |
| Serdes.Deserialize | cmod/include/nvhls_serdes.h:657-688 | the bufferless deserializer over a run of flits |
| Serdes.DeserializeAppend | cmod/include/nvhls_serdes.h:657-688 | running two stretches of flits is running their concatenation |
| Serdes.OrSliceLow | cmod/include/nvhls_serdes.h:676 | ORing a shifted slice into the bits below it extends them |
| Serdes.HeadStep | cmod/include/nvhls_serdes.h:671-674 | the HEAD flit leaves dest and the header bits in the buffer |
| Serdes.DataStep | cmod/include/nvhls_serdes.h:676-683 | data flit m adds its slice; the TAIL completes and pushes the packet |
| Serdes.DataStepBits | cmod/include/nvhls_serdes.h:676 | the bits a data flit adds are its slice at its offset |
| Serdes.DataOffsetNext | cmod/include/nvhls_serdes.h:676 | consecutive data flits' slices are a flit width apart |
| Serdes.LowAll | cmod/include/nvhls_serdes.h:676 | clearing from the width up changes nothing |
| Serdes.DeserializePrefix | cmod/include/nvhls_serdes.h:657-688 | after the first m flits the buffer holds dest and the data below flit m's offset, and nothing is pushed |
| Serdes.WormHoleLastFlit | cmod/include/nvhls_serdes.h:676-683 | after a packet's other flits nothing is pushed, and its TAIL pushes the packet and clears the data and count |
| Serdes.WormHolePacketRoundTrip | cmod/include/nvhls_serdes.h:657-688 | fed one packet's flits, the deserializer pushes exactly that packet's data and dest |
| Serdes.Delivered | cmod/include/nvhls_serdes.h:681 | the packets a receiver sees: each sent packet's data and dest |
| Serdes.DeliveredSnoc | cmod/include/nvhls_serdes.h:681 | one more packet sent, one more delivered |
| Serdes.WormHoleRoundTrip | cmod/include/nvhls_serdes.h:657-688 | fed a run of packets' flits, the deserializer pushes those packets in order |
| Serdes.WormHoleDeserializer.constructor | cmod/include/nvhls_serdes.h:619-640 | registers as the default packet leaves them, count 0 |
| Serdes.WormHoleDeserializer.Step | cmod/include/nvhls_serdes.h:668-684 | one loop pass is DeserializeStep |
| Serdes.WormHoleDeserializer.Process | cmod/include/nvhls_serdes.h:657-688 | reset, then every flit taken: the packets pushed are Deserialize's |
| Serdes.FreeTail | cmod/include/nvhls_serdes.h:420-421 | the index fifo's write pointer is a slot index |
| Serdes.Absorb | cmod/include/nvhls_serdes.h:426-429 | an entry takes a flit's data at n·flit_width and keeps dest and id |
| Serdes.SearchTo | cmod/include/nvhls_serdes.h:417-433 | the search loop changes only entries and `packet_pos`, never the free queue |
| Serdes.SearchToEntries | cmod/include/nvhls_serdes.h:422-431 | an entry changes exactly when it matches, and then takes the flit and counts it |
| Serdes.SearchToPos | cmod/include/nvhls_serdes.h:430 | `packet_pos` is the last matching entry, or unchanged |
| Serdes.TakeHeader | cmod/include/nvhls_serdes.h:406-414 | a header pops the front free index into `packet_pos` and starts that entry |
| Serdes.DeserStep | cmod/include/nvhls_serdes.h:404-443 | one flit: the assertions fail exactly when a header finds no free entry or a tail finds the fifo full; a tail pushes the entry at `packet_pos` and queues its index |
| Serdes.DeserRun | cmod/include/nvhls_serdes.h:402-445 | a run keeps the registers well formed |
| Serdes.DeserReset | cmod/include/nvhls_serdes.h:393-397 | the reset queues 0 .. buffersize-1 as free |
| Serdes.RunSnoc | cmod/include/nvhls_serdes.h:402-445 | a run one flit longer is the run followed by one step |
| Serdes.RunPrefix | cmod/include/nvhls_serdes.h:402-445 | a run without assertion failure has none on any prefix |
| Serdes.InterleavedFlits | cmod/include/nvhls_serdes.h:402-445 | two interleaved two-flit packets |
| Serdes.InterleavedHeaders | cmod/include/nvhls_serdes.h:406-414 | both headers take entries 0 and 1 |
| Serdes.InterleavedAsWrittenTailA | cmod/include/nvhls_serdes.h:419-424 | as written, A's tail finds no entry because the index fifo is empty |
| Serdes.InterleavedAsWrittenTailB | cmod/include/nvhls_serdes.h:419-441 | as written, B's tail then pushes entry 1 |
| Serdes.InterleavedAsWritten | cmod/include/nvhls_serdes.h:417-443 | as written, the interleaved run pushes B's half-built packet and queues index 1 twice |
| Serdes.InterleavedFixedTailA | cmod/include/nvhls_serdes.h:417-443 | corrected, A's tail finds entry 0 |
| Serdes.InterleavedFixedTailB | cmod/include/nvhls_serdes.h:417-443 | corrected, B's tail finds entry 1 |
| Serdes.InterleavedFixed | cmod/include/nvhls_serdes.h:402-445 | corrected, the interleaved run pushes A then B and frees both indices |
| Serdes.FixedKeepsFreeDistinct | cmod/include/nvhls_serdes.h:409-441 | corrected, no index is ever queued twice |
| Serdes.FixedSearchHits | cmod/include/nvhls_serdes.h:417-433 | corrected, a flit whose id only entry i holds lands in entry i alone |
| Serdes.DataStart | cmod/include/nvhls_serdes.h:407-414 | store-and-forward stores the header's data, wormhole starts after it |
| Serdes.Built | cmod/include/nvhls_serdes.h:412-429 | the entry built by the first m flits keeps its width and takes the packet id |
| Serdes.BuiltNext | cmod/include/nvhls_serdes.h:426-429 | one more stored flit extends the built entry |
| Serdes.HeaderBuilds | cmod/include/nvhls_serdes.h:406-414 | the header starts the built entry in the front free entry |
| Serdes.FixedBodyStep | cmod/include/nvhls_serdes.h:417-433 | corrected, a middle flit extends its entry and nothing else |
| Serdes.FixedPrefix | cmod/include/nvhls_serdes.h:402-445 | corrected, a packet's flits before its tail build it in the front free entry and push nothing |
| Serdes.FixedTailStep | cmod/include/nvhls_serdes.h:417-443 | corrected, a packet's tail completes its entry, pushes it and queues its index at the back |
| Serdes.FixedPacket | cmod/include/nvhls_serdes.h:402-445 | corrected, a whole packet pushes exactly its built entry and frees its index at the back |
| Serdes.FixedStoreForwardRoundTrip | cmod/include/nvhls_serdes.h:388-445 | corrected, store-and-forward serialization then deserialization gives back the packet |
| Serdes.FixedWormHoleRoundTrip | cmod/include/nvhls_serdes.h:514-570 | corrected, the no-id serializer into the buffered wormhole deserializer gives back the packet's data and dest |
| BufferedSerdes.BufferedDeserializer.State | cmod/include/nvhls_serdes.h:349-372 | the registers read as a well-formed Deser |
| BufferedSerdes.BufferedDeserializer.TailIsFreeTail | cmod/include/nvhls_serdes.h:421 | `fifo.get_tail()` is where the free queue ends |
| BufferedSerdes.BufferedDeserializer.constructor | cmod/include/nvhls_serdes.h:388-397 | construction and the reset loop reach DeserReset |
| BufferedSerdes.BufferedDeserializer.FillFree | cmod/include/nvhls_serdes.h:393-397 | the reset loop queues every index 0 .. buffersize-1 |
| BufferedSerdes.BufferedDeserializer.TakeHeaderFlit | cmod/include/nvhls_serdes.h:406-414 | the header branch is TakeHeader |
| BufferedSerdes.BufferedDeserializer.Search | cmod/include/nvhls_serdes.h:417-433 | the search loop, with the entry test as written, is SearchTo |
| BufferedSerdes.BufferedDeserializer.SearchEntry | cmod/include/nvhls_serdes.h:422-431 | one search pass is one more entry of SearchTo |
| BufferedSerdes.BufferedDeserializer.Step | cmod/include/nvhls_serdes.h:404-443 | one loop pass is DeserStep with the test as written |
| BufferedSerdes.BufferedDeserializer.Process | cmod/include/nvhls_serdes.h:388-445 | the loop's pushed packets are those of DeserRun |

## Left out

- `report_runtimes.py` text is taken as ASCII: `IsDigit` is `[0-9]` where Python's `\d` also matches other Unicode digits, and `Lower` lowers ASCII letters only, where `str.lower()` also lowers other letters and can change a string's length.
- ReportRuntimes.Round2: together with `ParseDecimal` and `TotalOf`, works on exact decimal values: `float()` parsing, the sums (`sum(...)` and `total_runtime += ...`) and `round(x, 2)` are exact, and IEEE-754 double rounding is not captured. For example, "elapsed time 2.675 seconds" is stored as 2.67499999999999982236431605997495353221893310546875 and rounds to 2.67 in the source, while the model reads exactly 2.675 and rounds it to 2.68; likewise 0.1 + 0.2 is not exactly 0.3 in the source.
- `report_runtimes.py` boundary I/O: argument parsing, `rglob` log discovery (a design is named by its log's parent directory), file reading (a read failure is an empty list of lines), the 30-character report layout and `csv.DictWriter` output are not modelled; the model produces the report lines' values and the CSV rows as data.
- `FIFO<T,0,N>` (the zero-depth specialisation) is not modelled: every operation but `reset` is an assertion failure, and the modelled `FIFO` requires a depth of at least 1.
- `FIFO<T,1,N>::NumFilled`/`NumAvailable` return the whole `valid` array, which does not type-check as written; the model gives the per-bank value.
- `ReorderBuf`'s data storage starts uninitialised; the model fills it with a value the caller supplies.
- ReorderBuf.ReorderBuf.AddResponse: requires that the id has a waiting entry; the source's assertion of this is commented out (`ReorderBuf.h:138`), and the model takes it as a precondition rather than modelling a response for an id that is not outstanding.
- `mem_array` slices that were never written are CMOD 'X' values; the model keeps them as `Undef`, and reading one is a precondition violation rather than a value.
- NvhlsInt.Lzd: models the build without `HLS_CATAPULT` (SystemC `sc_int`/`sc_uint`, `nvhls_int.h:637-651`). The `HLS_CATAPULT` branch returns `leading_sign()` (`nvhls_int.h:629-635`), which differs for a negative signed X and gives W-1 for a signed zero. The other `HLS_CATAPULT` branches are not modelled either: the `ac_int` typedefs (`nvhls_int.h:328-333`), the `ac_int` forms of `set_slc` and `get_slc` (`nvhls_int.h:389-391`, `442-444`, `491-493`), which take the same bit ranges as the modelled forms, and the plain `<<`/`>>` of `left_shift`/`right_shift` (`nvhls_int.h:723-724`, `783-784`), which do not keep the sign bit.
- `nvhls::normalize` is not part of this model: its width-specific mantissa/exponent branches are left out.
- `connections_cast_type_to_vector`/`connections_cast_vector_to_type` are foreign tool conversions; `TypeToBits` takes a message as the list of its field values, which stands in for an injective fixed-width encoding.
- `nv_scvector` elements that a constructor leaves unset are taken as 0.
- `nv_scvector` is modelled for unsigned elements only: `is_signed` (`nvhls_vector.h:84`) and the sign extension of signed elements in the element-wise operations are not modelled.
- `FlitId2bit`'s default constructor leaves the value uninitialised; the model starts it at BODY.
- `ArbitratedScratchpadDP`: its two arbitrated crossbars are instantiated with no input or output buffers, so only their arbiter pointers are state; the model keeps those pointers and proves in `ArbitratedCrossbar` that a crossbar object with empty queues steps exactly as this pointer step.
- `ArbitratedScratchpadDP::clear` calls `banks.reset()`, which `mem_array_sep` does not define; it is not modelled.
- `ArbitratedScratchpadDP` in single-port mode, for a bank with neither a read nor a write winner, leaves the response uninitialised; the model gives an invalid response with data 0.
- `ArbitratedScratchpadDP.Answers` ensures only the shape of the per-bank answers; their values are stated by the bank step lemmas.
- `BufferedPorts.WriteEn` ensures only that a write needs a valid enqueue; the exact behaviour is stated by `BufferedPorts.Bypass.Cycle` and `BufferedPorts.BypassStep`.
- SystemC ports and channels (`In`/`Out`, `Push`/`Pop`/`PushNB`/`PopNB`, `wait()`), including the `Scratchpad` module's `run` thread: the port operations become method parameters and results.
- `Pipeline`, `Sink`, `DummySink`, `DummySource` and `ChannelBinder` in the buffered-ports header are channel plumbing and are not modelled.
- Serializers and deserializers:
  - a wormhole packet that fits in its head flit (no data flits) is excluded, as the source's flit count assumes at least one data flit;
  - `set_slc` writes that run past the top of a register are clipped, as the hardware's fixed width does;
  - the narrow counters (`log_num_flits` wide) are unbounded naturals, which is faithful while the count stays below `num_flits`;
  - `packet_pos` and `num_flits_received` are uninitialised in the source and taken as 0;
  - re-running the reset does not clear the index fifo in the source, and the model resets once;
  - `NVHLS_ASSERT` failures are modelled as preconditions or as a failed (`None`) step;
  - `zero_bits` is a parameter.
- Clocks, reset timing and concurrency between SystemC threads are not modelled: every class method is one clock cycle of one thread.

## Findings

| source | as written | input that shows it | evidently intended | confidence | as-written member | corrected member |
|---|---|---|---|---|---|---|
| cmod/include/arbitrated_crossbar.h:137-155 | the status queries assert `index <= NumInputs` (and `<= NumOutputs`) | three inputs, index 3: the guard holds but there is no queue bank 3 | `index < NumInputs` | not executed | ArbitratedCrossbar.StatusGuardAdmitsMissingBank | ArbitratedCrossbar.ArbitratedCrossbar.IsInputEmpty |
| cmod/include/ArbitratedScratchpad.h:126-127 | with one bank `log2_nbanks` (line 65) is 1 and the power-of-two test passes, so the bank is bit 0 of the address | one bank, two inputs, address 1: sent to bank 1, which does not exist | every address goes to bank 0 and keeps its whole value | not executed | ArbitratedScratchpad.OneBankMisroutes | ArbitratedScratchpad.AddressSplit |
| cmod/include/ArbitratedScratchpad.h:123-137 | with one input the bank is 0 and the whole address is cut to `bank_addr_width` bits | one input, four banks, 16 words: addresses 0 and 4 both reach word 0 of bank 0 | distinct addresses reach distinct words | not executed | ArbitratedScratchpad.OneInputAliases | ArbitratedScratchpad.AddressSplitInjective |
| cmod/include/nvhls_serdes.h:78-79 | the store-and-forward serializer counts flits with the wormhole formula, which subtracts a head share that it never sends | 16 data bits, no dest bits, 8-bit flits: one SNGL flit carrying only the low 8 bits | one flit per flit-wide slice of the data | not executed | Serdes.StoreForwardAsWrittenDropsBits | Serdes.StoreForwardRoundTrip |
| cmod/include/nvhls_serdes.h:419-424 | the buffered deserializer picks the entry for a body or tail flit by comparing entry indices with the index fifo's pointers, which excludes every entry when the fifo is empty | buffer size 2, headers of packets A and B, then A's tail: B's half-built entry is pushed and index 1 is queued twice | the entry whose packet id matches and that is not free | not executed | Serdes.InterleavedAsWritten | Serdes.InterleavedFixed |
