# A verified model of self.llamolotl's core

This Dafny project models six pieces of the repository and proves what they keep.

- **Factored LoRA weights** (`tensors`, `low_rank`, `permuting`, `reshaping`, `selecting`, `index_entries`, `indexing`, `combining`, `joining`).
  A weight is kept as two factors (A, B) that stand for the product of B and A, batched over leading axes. Every
  operation of the converter works on the factors only. Each is shown to be carried out on exactly the stated requests
  and then to mean the same operation on the product, for any number of axes and any contents. Entries are real numbers.
- **Job scheduler, eviction, release and watchdog** (`schedule`, `schedule_effects`, `scheduler`, `router`, `first_seen`, `eviction`,
  `footprint`, `release`, `releasing`, `watchdog`, `watchdog_causes`). Jobs and pipeline tasks are a state machine whose steps are the
  service's own functions; what the outside answers (process exits, listings, clock readings) is a parameter. Invariants
  hold for every run of such steps from the first start of the service. Release requests interleave freely.
- **Marker-aware diff** (`segments`, `affixes`, `diff_meaning`, `diff_split`). The four-cursor algorithm as written, a
  description of its result that does not say how it is found, and the exact inputs on which it fails to give its inputs back.
- **Base64** (`base64`, `base64_exact`). Encoder, decoder and in-place decoder on one array, inverse to each other
  (sections 3.5, 4 and 5 of RFC 4648).
- **Legacy GGML files** (`bytes`, `ggml`, `ggml_exact`, `ggml_loader`). The parser of three formats inverts the layout;
  a header, hyperparameters, a token or a tensor record that lies within the data is accepted exactly if it is one that is written.
- **Command-line text** (`csv`, `csv_rows`, `wrapping`, `argv`, `argv_spelling`). The CSV row machine, the greedy wrapper, the two argument loops.

Code that changes things step by step is modelled by methods and classes whose contracts equate the outcome with a
function of the inputs or of the old state; the theorems are lemmas about those functions.

## What turned out not to hold as one might expect

- `calculate_diff_split` gives its inputs back exactly if a segment of a used-up side is not matched a second time
  (`DiffMeaning.Misreads` is the condition on the two segment lists). `<a><b>` against `<a><c><b><b>` fails, and
  `<a><b>` against `<a><b><b>` is reported as no difference at all.
- The header's fourth example of `until_common_prefix` (chat-auto-parser-helpers.h:30) has the empty result, not `"one "`: "argument"
  does not occur in the text at all (`Affixes.HeaderExample`). The model follows the code.
- Indexing an n-d weight with a tuple that slices a leading axis gives factors that go together exactly if A is
  broadcast on that axis or the slice keeps it whole (`Selecting.GetItemMeaning`, `Indexing.SlicedLeadFails`). Where A is broadcast on the
  first axis, a plain index is refused but for 0 and -1 (`Indexing.IndexPlainMeaning`).
- Two or more non-empty n-d weights are joined rightly exactly if A is as long as B on the first axis in every part
  (`Joining.CatNdOnlyAligned`, `Joining.CatMisaligned`). Elsewhere the code builds factors that do not go together.
- An ellipsis that is not last is expanded to as many full slices as there are other entries, not to as many as are
  missing (`Selecting.EllipsisExpansion` says when the two agree, `Indexing.EllipsisMisplaced` shows a case).
- `split` adds the number of axes to a negative axis once, and torch does so again. With an axis number that reaches one of the last
  two axes that way only the first part of the split is left (`Selecting.SplitUnnoticed`).
- The byte count of a tensor in a GGML file is computed in 64-bit integers and is right exactly if the true product
  fits (`GgmlFormat.WrapExact`). A record advances the offset exactly if its header, name, padding and byte count as computed add up to
  more than nothing (`GgmlFormat.AdvancesExactly`); a float tensor of dimensions 8, 0x3FFFFFFF, 0x40000001, 1 with a name of four bytes
  does not, and the loop never ends on it (`GgmlFormat.StallingRecord`). In general the loop never ends exactly if it returns to an
  offset it has been at (`GgmlFormat.EndsUnlessItReturns`).
- A healthy observation keeps the watchdog's unhealthy streak exactly if a model is stale and the cooldown is running
  (`Watchdog.HealthyKeepsStreak`), although the comment in api/state.py:2169-2170 says that any healthy one clears it.
- Cancelling a job starts nothing: training stands still afterwards exactly if no other job runs and another one is
  waiting (`Schedule.CancelIdles`).

## Model

| member | source | states |
|---|---|---|
| LowRank.DenseAt | self.llama/convert_lora_to_gguf.py:40-53 | an entry of the weight is the inner product of a row of B and a column of A, leading axes of A broadcast |
| LowRank.DenseExactly | self.llama/convert_lora_to_gguf.py:40-53 | the entry at idx is the sum over r of B at idx with r in the last place times A at idx with r in the last place but one, leading places of A free where A is broadcast |
| LowRank.SumAdds | self.llama/convert_lora_to_gguf.py:40-53 | sums of terms add up |
| LowRank.FactorsFollow | self.llama/convert_lora_to_gguf.py:40-53 | factors whose terms are another pair's terms at moved indices stand for its product with entries moved the same way |
| Permuting.Pigeonhole | self.llama/convert_lora_to_gguf.py:168-170 | a list naming n axes below n without repetition names all of them |
| Permuting.PermuteTensorAt | self.llama/convert_lora_to_gguf.py:174-176 | permuting moves axis dims[i] of a tensor to place i, entry by entry |
| Permuting.PermuteBDense | self.llama/convert_lora_to_gguf.py:171-174 | permuting B with its last axis fixed, under an A without other axes, permutes the product |
| Permuting.SwapFactorsDense | self.llama/convert_lora_to_gguf.py:175-176 | exchanging and transposing the factors of a matrix transposes the product |
| Permuting.PermuteMeaning | self.llama/convert_lora_to_gguf.py:168-179 | permute succeeds exactly on the requests of CanPermute, axis numbers up to 2 n - 1 included, and then means the same permutation of the product |
| Permuting.LargeNumbers | self.llama/convert_lora_to_gguf.py:170-174 | axis numbers from n on are taken once more from the front: permute(3, 4, -1) of a 3-d weight changes nothing |
| Permuting.TransposeMatrix | self.llama/convert_lora_to_gguf.py:181-188 | on a matrix transpose always succeeds, by either spelling of the axes, and entry (j, i) is the old entry (i, j) |
| Permuting.TransposeMeaning | self.llama/convert_lora_to_gguf.py:181-188 | for any two axes, named from the front or from the end: transpose succeeds exactly if A's leading axes have size 1 and the last axis stays, or the weight is a matrix; the product then has the two axes exchanged, entry by entry |
| Permuting.TransposeOutOfRange | self.llama/convert_lora_to_gguf.py:181-188 | other axis numbers are refused |
| Reshaping.ExpandFits | self.llama/convert_lora_to_gguf.py:145-150 | one -1 is filled in exactly if some size makes the element counts agree, and then with such a size |
| Reshaping.ExpandExactly | self.llama/convert_lora_to_gguf.py:145-150 | what becomes of a request with any number of -1s: exactly when it is refused, and every size of it otherwise |
| Reshaping.ProdIntIsProd | self.llama/convert_lora_to_gguf.py:145-150 | the product taken of a request is its number of elements |
| Reshaping.DenseIsFlat | self.llama/convert_lora_to_gguf.py:155-160 | with leading axes of size 1 in A the product, read flat, does not depend on the shape |
| Reshaping.LeadingOnesByCount | self.llama/convert_lora_to_gguf.py:155-158 | A can take the shape (1, ..., 1, rank, row size) exactly if its leading axes have size 1 |
| Reshaping.ReshapeMeaning | self.llama/convert_lora_to_gguf.py:136-160 | with a rank and a row size, reshape succeeds exactly on the requests of CanReshape, keeps both factors' elements and reshapes the product |
| Reshaping.ReshapeSizeless | self.llama/convert_lora_to_gguf.py:136-160 | without one of them, reshape succeeds exactly on the requests of CanReshapeSizeless, and is the product reshaped exactly if the element counts agree |
| Reshaping.UndoPermuteMeaning | self.llama/conversion/llama.py:176-182 | the reshape, swap, reshape of attention rows succeeds, leaves A's values, and moves row (head, half, place) of the product to (head, place, half) |
| Selecting.SelectColsDense | self.llama/convert_lora_to_gguf.py:108-112 | selecting columns of A selects columns of the product |
| Selecting.SelectRowsDense | self.llama/convert_lora_to_gguf.py:75-76 | selecting rows of B selects rows of the product |
| Selecting.SelectLeadDense | self.llama/convert_lora_to_gguf.py:201-206 | selecting along a leading axis, A following unless it is broadcast there, selects in the product |
| Selecting.PickLeadDense | self.llama/convert_lora_to_gguf.py:99-112 | fixing one place of a leading axis, A's place taken modulo its size, fixes it in the product |
| Selecting.ChunksCover | self.llama/convert_lora_to_gguf.py:190-206 | the positions of the parts of a split, joined in order, are all positions of the axis |
| Selecting.CutSizes | self.llama/convert_lora_to_gguf.py:190-206 | chunks of one size: all are of that size but the last, which is what remains; an empty axis is one empty chunk |
| Selecting.SplitSizesExactly | self.llama/convert_lora_to_gguf.py:190-206 | a list of sizes is taken as it is exactly if none is negative and they add up; one size is taken if positive, or 0 on an empty axis |
| Selecting.SelectAxisDense | self.llama/convert_lora_to_gguf.py:195-206 | the same along any axis, by whichever factor carries it |
| Selecting.SplitMeaning | self.llama/convert_lora_to_gguf.py:190-206 | split succeeds exactly if the axis exists and the sizes fit it, and part k stands for part k of the product, unless the axis number is Unnoticed |
| Selecting.AxisExactly | self.llama/convert_lora_to_gguf.py:191-195 | which axis a number names |
| Selecting.SplitRankOne | self.llama/convert_lora_to_gguf.py:201-206 | an unnoticed row axis of a weight of rank 1 is split as usual |
| Selecting.SplitUnnoticed | self.llama/convert_lora_to_gguf.py:190-206 | any other unnoticed split into chunks succeeds exactly if a chunk is as long as the rank, leaves only the first part, and is the split asked for exactly if there is no other |
| Selecting.IndexFactorsDense | self.llama/convert_lora_to_gguf.py:99-112 | indexing leading axes with safe items indexes the product |
| Selecting.GetItemMeaning | self.llama/convert_lora_to_gguf.py:95-112 | a tuple index that ends in two slices gives factors that go together exactly if all its slices of leading axes are safe, and then stands for the indexed product |
| IndexEntries.GetItemAt | self.llama/convert_lora_to_gguf.py:95-112 | the shape of the indexed product and every entry of it: where each place of the result comes from, slice by slice and integer by integer |
| IndexEntries.IndexLeadAt | self.llama/convert_lora_to_gguf.py:99-112 | the same for the leading axes alone |
| Indexing.IntegersLast | self.llama/convert_lora_to_gguf.py:99-112 | an integer in the last two places of the tuple never gives the indexed product: one alone is refused, two give an axis too many or are refused |
| Indexing.IndexPlainMeaning | self.llama/convert_lora_to_gguf.py:67-71 | a plain index succeeds exactly on n-d weights, in range, and as 0 or -1 where A is broadcast; it then stands for that part of the product |
| Indexing.SlicePlainMeaning | self.llama/convert_lora_to_gguf.py:72-76 | a plain slice gives factors that go together exactly if A has the axis, or keeps its one entry, or nothing is kept; it then stands for the sliced product |
| Indexing.SlicedLeadFails | self.llama/convert_lora_to_gguf.py:99-112 | a concrete tuple whose factors do not go together |
| Indexing.EllipsisMisplaced | self.llama/convert_lora_to_gguf.py:81-96 | a concrete tuple whose ellipsis is expanded to the wrong place |
| Selecting.EllipsisExpansion | self.llama/convert_lora_to_gguf.py:79-96 | exactly when the expansion of an ellipsis is the one meant |
| Combining.MulMeaning | self.llama/convert_lora_to_gguf.py:211-219 | scaling succeeds exactly with an output-side factor of no more axes than the weight that broadcasts with it, either way, and scales the product |
| Combining.SameRowsCompatible | self.llama/convert_lora_to_gguf.py:211-216 | an output-side factor broadcasts with B exactly if it broadcasts with the weight |
| Combining.MulTensorExactly | self.llama/convert_lora_to_gguf.py:211-219 | an entry of the scaled product is the product of the two entries that meet there, aligned at the end, axes of size 1 taken throughout; its shape |
| Combining.CompatibleMeaning | self.llama/convert_lora_to_gguf.py:211-219 | two shapes broadcast with each other exactly if both expand to one shape |
| Joining.StackAccepts | self.llama/convert_lora_to_gguf.py:234-242 | exactly weights of one shape and rank, with A broadcast alike, are stacked |
| Joining.StackMeaning | self.llama/convert_lora_to_gguf.py:234-242 | stacked factors stand for the stacked products |
| Joining.CatRowsAccepts | self.llama/convert_lora_to_gguf.py:253-259 | matrices are joined exactly if they share A |
| Joining.CatRowsMeaning | self.llama/convert_lora_to_gguf.py:253-257 | joined by rows they stand for the joined products |
| Joining.CatNdMeaning | self.llama/convert_lora_to_gguf.py:243-252 | n-d weights whose A and B are aligned on the first axis, joined, stand for the joined products |
| Joining.CatNdOnlyAligned | self.llama/convert_lora_to_gguf.py:248-252 | two or more non-empty n-d parts are joined to factors that go together exactly if they are aligned |
| Joining.CatNdProperExactly | self.llama/convert_lora_to_gguf.py:248-252 | n-d parts of any lengths are joined to factors that go together exactly if A has one entry on the first axis in all, or as many as B |
| Joining.CatOne | self.llama/convert_lora_to_gguf.py:243-257 | one weight alone is joined to itself |
| Joining.CatMisaligned | self.llama/convert_lora_to_gguf.py:248-252 | two concrete shapes joined to factors that do not go together |
| Joining.CatSplitTensor | self.llama/convert_lora_to_gguf.py:243-259 | tensors split along the first axis and joined are what they were |
| Joining.CatSplitRows | self.llama/convert_lora_to_gguf.py:198-200 | a matrix split by rows and joined is the matrix it was, factors included |
| Segments.SegmentizeMarkers | self.llama/common/chat-auto-parser-helpers.cpp:266-296 | the pass with border, open flag and last opener yields the segmentation |
| Segments.SegmentationIsOne | self.llama/common/chat-auto-parser-helpers.cpp:266-296 | it joins to the text; markers run from an opener to its first closer; texts are non-empty, maximal and opener-free but for an unclosed tail |
| Segments.SegmentationUnique | self.llama/common/chat-auto-parser-helpers.cpp:266-296 | a list meets those conditions exactly if it is the segmentation |
| Segments.SegmentationDistributes | self.llama/common/chat-auto-parser-helpers.cpp:266-296 | a text that ends in a marker is segmented independently of what follows |
| Segments.BothKinds | self.llama/common/chat-auto-parser-helpers.cpp:266-296 | both kinds of brackets on concrete texts |
| Affixes.CommonPrefixLength | self.llama/common/chat-auto-parser-helpers.cpp:66-73 | the longest common prefix |
| Affixes.CommonSuffixLength | self.llama/common/chat-auto-parser-helpers.cpp:75-82 | the longest common suffix |
| Affixes.CutUntilCommonPrefix | self.llama/common/chat-auto-parser-helpers.cpp:207-232 | the method with its early returns yields UntilCommonPrefix |
| Affixes.CutAfterCommonSuffix | self.llama/common/chat-auto-parser-helpers.cpp:234-261 | the method with its early returns yields AfterCommonSuffix |
| Affixes.UntilIsBeforeFirst | self.llama/common/chat-auto-parser-helpers.h:24-35 | a text is the non-empty result exactly if it stands in front of the first occurrence of the longest common prefix |
| Affixes.HeaderExample | self.llama/common/chat-auto-parser-helpers.h:28-32 | the fourth documented example has the empty result |
| Affixes.FindMirrors | self.llama/common/chat-auto-parser-helpers.cpp:234-261 | the last occurrence is the first one in the reversed strings |
| Affixes.AfterMirrorsUntil | self.llama/common/chat-auto-parser-helpers.cpp:207-261 | after_common_suffix is until_common_prefix on reversed strings, reversed |
| DiffSplitting.CalculateDiffSplit | self.llama/common/chat-auto-parser-helpers.cpp:84-204 | the result is the difference that IsDifference describes for all inputs with two different non-empty sides; the inputs are given back exactly if not Misreads; no difference is reported exactly if there is none or MissesDifference |
| DiffMeaning.DifferenceUnique | self.llama/common/chat-auto-parser-helpers.cpp:84-204 | IsDifference leaves no choice: how many whole segments are shared at each end, then the longest common suffix and prefix of what is left where both sides are text there, then the adjustments |
| DiffSplitting.SharedPrefix | self.llama/common/chat-auto-parser-helpers.cpp:174-180 | the difference of "Hello A" and "Hello B" has prefix "Hello " |
| DiffSplitting.SharedBothEnds | self.llama/common/chat-auto-parser-helpers.cpp:165-180 | that of "Say A!" and "Say B!" has prefix "Say " and suffix "!" |
| DiffSplitting.TextSplitShares | self.llama/common/chat-auto-parser-helpers.cpp:165-180 | the rests share as much text as they have in common where both may, and none elsewhere |
| DiffSplitting.CleanEnds | self.llama/common/chat-auto-parser-helpers.cpp:111-162 | loop and branches take the longest common front and back, or divide the shorter side between them |
| DiffSplitting.Round | self.llama/common/chat-auto-parser-helpers.cpp:111-136 | one round of the loop moves each end inwards exactly if its two segments agree, and keeps the cursors in step |
| DiffSplitting.UsedUpIsStraddled | self.llama/common/chat-auto-parser-helpers.cpp:111-136 | the loop uses up a side alone exactly if its two halves are the ends of the other side |
| DiffSplitting.RereadIsAct | self.llama/common/chat-auto-parser-helpers.cpp:138-162 | a branch after the loop fires on a used-up side exactly if its middle segment matches once more |
| DiffSplitting.Outcome | self.llama/common/chat-auto-parser-helpers.cpp:111-204 | the verdict of CalculateDiffSplit on two non-empty inputs, from the cursors at the end of the loop |
| DiffSplitting.RepeatedMarkerIsMissed | self.llama/common/chat-auto-parser-helpers.cpp:111-204 | a concrete pair that is different and reported as equal |
| DiffSplitting.RepeatedMarkerIsMisread | self.llama/common/chat-auto-parser-helpers.cpp:111-204 | a concrete pair whose pieces do not give left back |
| Base64.Encode | self.llama/common/base64.hpp:80-144 | the encoder writes the symbols of the bits taken six at a time, padded to a multiple of four |
| Base64.EncodingLength | self.llama/common/base64.hpp:338-341 | the text is as long as required_encode_size says |
| Base64.Decode | self.llama/common/base64.hpp:200-244 | the decoder, its bits held over and its settling alphabet, yields Decoding: same bytes, same refusals |
| Base64.DecodedLength | self.llama/common/base64.hpp:324-327 | output is at most max_decode_size |
| Base64.DecodeInPlace | self.llama/common/base64.hpp:294-313 | decoding over the input buffer gives the bytes and the refusals of Decoding into a fresh one |
| Base64.WrittenBehind | self.llama/common/base64.hpp:294-313 | the place written stays behind the characters read |
| Base64.SymbolValue | self.llama/common/base64.hpp:344-389 | every symbol reads back as its value, in its own alphabet or in one to be found out |
| Base64.UnpackPack | self.llama/common/base64.hpp:80-244 | bits regrouped from bytes to values and back are the same bytes |
| Base64.PackUnpack | self.llama/common/base64.hpp:80-244 | and from values with zero rest to bytes and back |
| Base64.DecodeEncode | self.llama/common/base64.hpp:80-244 | decoding undoes encoding, both alphabets, told or found out, any number of padding characters |
| Base64.EncodeDecode | self.llama/common/base64.hpp:80-244 | encoding undoes decoding on canonical text |
| Base64.EncodingIsCanonical | self.llama/common/base64.hpp:80-144 | what the encoder writes is canonical |
| Base64Exact.SymbolTable | self.llama/common/base64.hpp:85-87 | the character for each value is the one at its place in the alphabet written out |
| Base64Exact.EncodingExactly | self.llama/common/base64.hpp:80-144 | every character of the encoding: the table's for every value, then padding to a multiple of four |
| Base64Exact.PackIsNumber | self.llama/common/base64.hpp:96-140 | read as one number, the values are the bytes with zeros behind them |
| Base64Exact.UnpackIsNumber | self.llama/common/base64.hpp:214-230 | read as one number, the bytes are the values without the bits that fill no byte |
| Base64Exact.DecodingExactly | self.llama/common/base64.hpp:200-244 | text is decoded exactly if all before the first padding character is in the table and, unless the reader is loose, all after it is padding |
| Base64Exact.AutoIsEither | self.llama/common/base64.hpp:367-385 | with the alphabet left open, text is accepted exactly if it is accepted in one of the two, and as the same bytes |
| GgmlFormat.AlignUp | self.llama/convert_llama_ggml_to_gguf.py:124 | the padded offset is the least multiple of 32 not below the offset |
| GgmlFormat.WrapExact | self.llama/convert_llama_ggml_to_gguf.py:126-127 | the 64-bit byte count is the true one exactly if the true product fits |
| GgmlFormat.WrapIsResidue | self.llama/convert_llama_ggml_to_gguf.py:126-127 | in any case it is the true product less a multiple of 2^64, as a signed integer, divided by the block size |
| GgmlFormat.NextIsResidue | self.llama/convert_llama_ggml_to_gguf.py:131-191 | the offset after a record is where its data end, less a multiple of 2^64 |
| GgmlFormat.WrapLosesBytes | self.llama/convert_llama_ggml_to_gguf.py:126-127 | legal dimensions whose bytes are counted as none |
| GgmlFormat.TensorPlace | self.llama/convert_llama_ggml_to_gguf.py:110-129 | at an offset that is not negative, a record's 12-byte header is there, and its data begin after its header, dimensions and name, 32-aligned if padded |
| GgmlFormat.AdvancesExactly | self.llama/convert_llama_ggml_to_gguf.py:110-131 | a record advances the offset exactly if its header, name, padding and byte count as computed add up to more than nothing, within 64 bits |
| GgmlFormat.NextExact | self.llama/convert_llama_ggml_to_gguf.py:126-131 | the next record begins where the data truly end exactly if the record fits |
| GgmlFormat.FitsAdvances | self.llama/convert_llama_ggml_to_gguf.py:110-131 | a record that fits takes at least 12 bytes |
| GgmlFormat.FittingEnds | self.llama/convert_llama_ggml_to_gguf.py:190-194 | if every record met fits, the loop ends within a twelfth as many rounds as there are bytes |
| GgmlFormat.AdvancingEnds | self.llama/convert_llama_ggml_to_gguf.py:190-194 | if every record met advances, it ends within as many rounds as there are bytes |
| GgmlFormat.StallingRecord | self.llama/convert_llama_ggml_to_gguf.py:110-131 | a concrete record, anywhere in a file without padding, on which the loop never ends |
| GgmlFormat.EndsUnlessItReturns | self.llama/convert_llama_ggml_to_gguf.py:190-194 | the loop never ends exactly if it returns to an offset it has been at |
| GgmlFormat.EndsOnce | self.llama/convert_llama_ggml_to_gguf.py:190-194 | what it ends in does not depend on how long it is watched |
| GgmlFormat.HeaderBack | self.llama/convert_llama_ggml_to_gguf.py:145-166 | the header of each format and version reads back |
| GgmlFormat.HyperBack | self.llama/convert_llama_ggml_to_gguf.py:59-73 | so do the hyperparameters |
| GgmlFormat.VocabBack | self.llama/convert_llama_ggml_to_gguf.py:84-98 | so does a vocabulary, with or without scores |
| GgmlFormat.TensorBack | self.llama/convert_llama_ggml_to_gguf.py:110-131 | so does a tensor record at any offset, and its data are where the entry says |
| GgmlFormat.TensorsBack | self.llama/convert_llama_ggml_to_gguf.py:188-194 | so do all records up to the end |
| GgmlFormat.DataBack | self.llama/convert_llama_ggml_to_gguf.py:128-130 | the bytes of each entry are the tensor's own |
| GgmlFormat.ModelBack | self.llama/convert_llama_ggml_to_gguf.py:180-200 | a well-formed file of any format, after any prefix, reads back whole; it is refused exactly if the layout of its quantization has changed since, or the last feed-forward tensor of layer 0 is missing or too flat |
| GgmlFormat.ConvertibleExactly | self.llama/convert_llama_ggml_to_gguf.py:168-176 | files are eligible exactly if their layout has not changed: all quantized ones did at GGJT v2, four of them again at v3 |
| GgmlFormat.KnownExactly | self.llama/convert_llama_ggml_to_gguf.py:27-44 | the file types known are exactly those listed |
| GgmlExact.HeaderExactly | self.llama/convert_llama_ggml_to_gguf.py:145-166 | a header is accepted exactly if it is one of the three, of a version that exists |
| GgmlExact.HeaderRefused | self.llama/convert_llama_ggml_to_gguf.py:145-166 | what each refusal of a header means |
| GgmlExact.HyperExactly | self.llama/convert_llama_ggml_to_gguf.py:59-73 | hyperparameters are accepted exactly if they are there, with a known file type |
| GgmlExact.TokenExactly | self.llama/convert_llama_ggml_to_gguf.py:84-98 | a token within the data is accepted exactly if it is one that is written |
| GgmlExact.TensorExactly | self.llama/convert_llama_ggml_to_gguf.py:110-131 | a tensor record within the data is accepted exactly if it is one that is written, and its data begin and end where the record says |
| GgmlExact.NamesSpell | self.llama/convert_llama_ggml_to_gguf.py:146-166 | the magic bytes and the tensor name looked for, spelled out |
| GgmlExact.ReadsHalfPrecision | self.llama/convert_llama_ggml_to_gguf.py:168-172 | a concrete half-precision file of the oldest format is read |
| GgmlExact.RefusesChangedLayouts | self.llama/convert_llama_ggml_to_gguf.py:168-178 | a concrete file quantized to four bits is refused in versions 1 and 2 of GGJT and read in version 3 |
| GgmlFormat.ParsedTiles | self.llama/convert_llama_ggml_to_gguf.py:188-194 | wherever the records read all fit, they follow one another without gap up to the returned offset |
| GgmlFormat.RangesDisjoint | self.llama/convert_llama_ggml_to_gguf.py:110-131 | their data ranges are then increasing and disjoint, 32-aligned if padded, and only the last may leave the file |
| GgmlFormat.VocabTiles | self.llama/convert_llama_ggml_to_gguf.py:84-98 | the vocabulary takes its tokens' bytes, unless its text runs off the data |
| GgmlFormat.SectionsTile | self.llama/convert_llama_ggml_to_gguf.py:180-200 | header, hyperparameters, vocabulary and tensors that fit tile the file up to the returned offset |
| GgmlLoader.Hyperparameters.Load | self.llama/convert_llama_ggml_to_gguf.py:59-73 | fills the object as parsed; untouched on short data |
| GgmlLoader.Vocab.Load | self.llama/convert_llama_ggml_to_gguf.py:84-98 | appends the tokens parsed and returns the bytes taken |
| GgmlLoader.Tensor.Load | self.llama/convert_llama_ggml_to_gguf.py:110-131 | fills the object as parsed and returns how far the offset moves in 64-bit integers, which may be nothing or less |
| GgmlLoader.GGMLModel.ValidateHeader | self.llama/convert_llama_ggml_to_gguf.py:145-166 | sets format and version as parsed, and neither on refusal |
| GgmlLoader.LoadTensors | self.llama/convert_llama_ggml_to_gguf.py:188-194 | new objects for all records, and the map from each name to its last position; or that the loop has not ended in the rounds given |
| GgmlLoader.GGMLModel.SetFeedForward | self.llama/convert_llama_ggml_to_gguf.py:53-57 | the second dimension of the last tensor of the name |
| GgmlLoader.GGMLModel.Load | self.llama/convert_llama_ggml_to_gguf.py:180-200 | the whole file as ParseModel says, the offset moving as 64-bit integers do; earlier objects stay until the file is read |
| Schedule.StepSafe | api/state.py:672-1014 | every step keeps the invariant, moves records forward only, and starts jobs and queued tasks in turn |
| Schedule.RunSafe | api/state.py:672-1014 | so does every run |
| Schedule.ReachableSafe | api/main.py:23-31 | at every step of every run of the service from its first start |
| Schedule.TablesMirror | api/state.py:882-885 | the process tables are exactly the running jobs and tasks, and at most one job runs |
| Schedule.RestartRecovers | api/state.py:672-718 | a restart gives what memory would have given, with what ran marked as failed, and is idempotent |
| Schedule.StartNextSafe | api/state.py:888-899 | a job starts only approved, oldest first, with none running |
| Schedule.StartQueuedSafe | api/state.py:910-923 | a queued task starts only first in the queue, with no job and no GPU task running |
| Schedule.StartTaskSafe | api/state.py:926-970 | a new task is queued only if it uses the GPU, and no GPU task starts while a job runs |
| Schedule.PollJobSafe | api/state.py:2330-2357 | settling a job, with the conversion that may follow, is safe |
| Schedule.PollTaskSafe | api/state.py:2366-2390 | settling a task is safe |
| Schedule.ApproveSafe | api/routers/jobs.py:232-249 | approving is safe |
| Schedule.CancelSafe | api/routers/jobs.py:205-229 | cancelling a job is safe |
| Schedule.CancelTaskSafe | api/routers/pipeline.py:785-806 | cancelling a task is safe |
| Schedule.StartNextWorks | api/state.py:888-899 | after an attempt whose process starts, training does not stand still |
| Schedule.CancelIdles | api/routers/jobs.py:205-229 | training stands still after a cancellation exactly if no other job runs and another one waits |
| Schedule.PollIsRun | api/state.py:2330-2392 | a pass of the poll loop is a run of single steps |
| Schedule.PollSafe | api/state.py:2330-2392 | so it keeps the invariant and moves records forward |
| Schedule.PollSettlesJobs | api/state.py:2330-2357 | after a pass a job that ran is settled with its exit code, or runs on |
| Schedule.PollSettlesTasks | api/state.py:2366-2392 | the same for tasks |
| Schedule.Oldest | api/state.py:894-899 | the approved pending job that a stable sort by creation time puts first |
| ScheduleEffects.CreateMeaning | api/routers/jobs.py:120-134 | a new job is pending and unapproved, behind all others, and nothing else changes |
| ScheduleEffects.ApproveMeaning | api/routers/jobs.py:232-249 | exactly a pending, unapproved job is approved, which changes that one flag of that one record, in memory and on disk |
| ScheduleEffects.CancelMeaning | api/routers/jobs.py:205-229 | exactly a running or pending job is cancelled: its status changes, it leaves the table, and nothing else changes |
| ScheduleEffects.CancelTaskMeaning | api/routers/pipeline.py:785-806 | exactly a running task is cancelled: it ends as failed by its user, leaves the table, and nothing else changes |
| ScheduleEffects.UnknownNames | api/routers/jobs.py:205-249 | without a record of the name the answer says so |
| ScheduleEffects.StartNextMeaning | api/state.py:888-899 | with nothing running the next job runs and is tabled, or has failed for the reason given; nothing else changes |
| ScheduleEffects.NothingToStart | api/state.py:888-899 | without an approved pending job nothing changes |
| ScheduleEffects.ApprovedRuns | api/routers/jobs.py:232-249 | after an approval training runs, if the processes start |
| ScheduleEffects.StartQueuedMeaning | api/state.py:910-923 | the first queued task runs and is tabled, or has failed for want of a command or a process |
| ScheduleEffects.StartTaskMeaning | api/state.py:926-970 | a new task is one more record, queued exactly if a job runs and its kind is one of the five that use the GPU |
| ScheduleEffects.CheckJobMeaning | api/state.py:2330-2357 | a job whose process has exited is settled by its exit code and leaves the table; only a success starts a conversion |
| ScheduleEffects.CheckTaskMeaning | api/state.py:2366-2390 | the same for a task |
| ScheduleEffects.RestartMeaning | api/state.py:672-718 | every record survives a restart as it was, but what ran has failed, lost on restart |
| ScheduleEffects.PollGoesOn | api/state.py:2330-2392 | a pass that finds a job finished leaves no approved job waiting with nothing running, if the processes start |
| ScheduleEffects.PollServesQueue | api/state.py:2330-2392 | a pass that finds anything finished leaves no task queued for a free GPU, if there are commands and they start |
| Scheduler.Service.constructor | api/main.py:26-29 | starting up is a restart from the files and one attempt to start a job |
| Scheduler.Service.LoadJobs | api/state.py:692-718 | every record of the file, what ran marked as failed |
| Scheduler.Service.LoadTasks | api/state.py:672-689 | the same for tasks |
| Scheduler.Service.StartJob | api/state.py:828-885 | the job runs, is tabled and saved, or is failed and saved |
| Scheduler.Service.TryStartNextPending | api/state.py:888-899 | the scans for a running job and for the oldest approved one end in that job's start, or in nothing |
| Scheduler.Service.TryStartQueuedTasks | api/state.py:910-923 | the scans for running work and for the first queued task end in that task's launch, or in nothing |
| Scheduler.Service.StartPipelineTask | api/state.py:926-970 | a new record, queued and saved while a job runs if it uses the GPU, otherwise launched |
| Scheduler.Service.LaunchTask | api/state.py:973-1014 | the task runs and is tabled, or fails for want of a command or a process; saved either way |
| Scheduler.Service.CreateJob | api/routers/jobs.py:120-134 | a pending, unapproved record is added and saved |
| Scheduler.Service.ApproveJob | api/routers/jobs.py:232-249 | refusals change nothing; otherwise approve, save and try to start |
| Scheduler.Service.CancelJob | api/routers/jobs.py:205-229 | refusals change nothing; otherwise the job is cancelled, leaves the table and is saved |
| Scheduler.Service.CancelTask | api/routers/pipeline.py:785-806 | the same for a task, which must be running and ends as failed |
| Scheduler.Service.PollAll | api/state.py:2330-2392 | the loops over jobs and tasks do what Poll says |
| FirstSeen.TrackedIsStreak | api/state.py:1893-1899 | the time remembered is that of the first sight of the streak a history ends in, and none is remembered exactly if there is no streak |
| FirstSeen.LoadedIsStreak | api/state.py:1875-1899 | for loaded models, over the whole history of listings; an unanswered one breaks every streak |
| FirstSeen.LoadingIsStreak | api/state.py:2132-2155 | for loading models; an unanswered one breaks none, a recovery breaks all |
| FirstSeen.StalenessMeaning | api/state.py:2132-2157 | a model is reported exactly if one listed as loading has been so, unbroken, for longer than the timeout |
| FirstSeen.FirstStuckIsFirst | api/state.py:2132-2157 | the model reported is the first in the order of the listing |
| FirstSeen.SortedPositionsOrdered | api/state.py:1902 | the sort is by age and stable |
| FirstSeen.SortedMeaning | api/state.py:1902 | and a permutation |
| FirstSeen.SelectShortest | api/state.py:1904-1913 | the selection is the shortest oldest-first prefix whose known sizes reach the target, or everything |
| FirstSeen.TotalAdds | api/state.py:1904-1913 | sizes add up, an unknown one counting nothing |
| FirstSeen.EvictionIsOldestPrefix | api/state.py:1875-1913 | over any history: what is selected is loaded, nothing left is older, something is left only if the target is reached, and no shorter selection reaches it |
| Eviction.LoadedMemory.SelectModelsToEvict | api/state.py:1875-1913 | the loop updates the memory and returns the selection |
| Eviction.KeepSeen | api/state.py:1896-1899 | names not seen are dropped, others keep their time |
| Footprint.ResidentFootprints | api/state.py:1169-1200 | the loaded models with their bytes, unknown where none are published |
| Footprint.SelfAttributedHeldBytes | api/state.py:1231-1254 | the sum of all bytes, or unknown as soon as one model is unmeasured |
| Footprint.FreedIsWhatLeft | api/state.py:2074-2078 | with known readings, no new model and unchanged bytes, the figure is the bytes of exactly the models that left |
| Footprint.UnknownFreesNothing | api/state.py:2074-2085 | an unmeasured loaded model, a silent router or a silent card gives 0, before or after |
| Footprint.DeviceCounts | api/state.py:1185-1198 | one device counts its model, context and compute bytes, absent ones as none |
| Footprint.EntryCounts | api/state.py:1169-1200 | one entry counts exactly if it is loaded and has a name; unknown if it has published nothing |
| Footprint.BytesAdd | api/state.py:1185-1198 | the bytes of devices add up |
| Footprint.HeldAdds | api/state.py:1231-1254 | what parts of a listing hold adds up, unknown as soon as one is |
| Release.StepSafe | api/state.py:2018-2096 | every step of every request keeps the lock exclusive, unloads together, and what is evicted a subsequence of what was selected |
| Release.RunSafe | api/state.py:2018-2096 | so does every interleaving |
| Release.FromIdle | api/state.py:1923-1925 | in particular from a free lock |
| Release.BusyIffOccupied | api/state.py:2018-2021 | a request is told busy exactly if another is inside, and then nothing else changes |
| Release.BusyUnloadsNothing | api/state.py:2018-2021 | a request told busy has unloaded nothing and never will |
| Release.DoneStays | api/state.py:2089-2096 | an answered request is never touched again |
| Release.FreeWhenDone | api/state.py:2095-2096 | with no request inside the lock is free, however the others ended |
| Release.OwnStepsDescend | api/state.py:2023-2096 | every step of a request brings it closer to giving the lock back |
| Releasing.WaitForModelsUnloaded | api/state.py:1930-1966 | what is pending at the end was never seen unloaded, and only the deadline ends the wait early |
| Releasing.ReleaseService.HandleRelease | api/state.py:1969-2096 | one request: busy changes nothing; otherwise selection, unloads until the deadline, freed figure, and the lock as before |
| Releasing.UnloadAll | api/state.py:2034-2046 | unloads in order until the deadline, recording those answered |
| Releasing.HandlerIsRun | api/state.py:2018-2096 | left undisturbed, the steps of a request end as the handler does |
| Releasing.EvictedExactly | api/state.py:2034-2046 | evicted are, in order, exactly the models unloaded before the deadline passed whose unload was answered |
| Releasing.AnsweredExactly | api/state.py:2074-2094 | the figure answered is what was held less what is held, if both are known and it is positive; the status says whether it reaches the target |
| Watchdog.Guard.CheckStaleness | api/state.py:2132-2157 | the first stale model in the order of the listing, and the memory after |
| Watchdog.Guard.Check | api/state.py:2200-2310 | one check fires and remembers as Fires and After say |
| Watchdog.RecoveriesApart | api/state.py:2228-2236 | any two recoveries are at least the timeout and the cooldown apart |
| Watchdog.RecoveryInTime | api/state.py:2218-2236 | unhealthy throughout: a recovery no later than the first tick at which both waits are over |
| Watchdog.StuckModelInTime | api/state.py:2146-2150 | the same for a model that never stops loading, whatever the health says |
| Watchdog.StreakIsHistory | api/state.py:2209-2225 | the streak is the one of the whole history of ticks |
| Watchdog.LoadingIsHistory | api/state.py:2146-2155 | the loading times are those of the history of listings and recoveries |
| Watchdog.HealthyKeepsStreak | api/state.py:2209-2236 | a healthy tick keeps the streak exactly if a model is stale and the cooldown runs |
| Watchdog.StreakOutlivesHealth | api/state.py:2209-2236 | a concrete run with a recovery across a healthy tick |
| WatchdogCauses.FiresExactly | api/state.py:2200-2236 | a recovery is forced exactly if none was within the cooldown, and a model has been loading unbroken for longer than the timeout or the server is unhealthy and has been for the timeout with no wholly good tick between |
| WatchdogCauses.GoodTickIsQuiet | api/state.py:2209-2216 | a healthy tick without such a model forces nothing and leaves no streak |
| WatchdogCauses.ComesUpInTime | api/state.py:2209-2216 | a concrete server that comes up in time is left alone |
| Csv.ParseCsvRow | self.llama/common/arg.cpp:1347-1389 | the loop yields Parse |
| Csv.RoundTrip | self.llama/common/arg.cpp:1343-1389 | any non-empty list of fields, quoted or bare where possible, is read back |
| Csv.BareExactly | self.llama/common/arg.cpp:1355-1361 | a field may stay bare exactly if it has no comma and no opening quote |
| Csv.SplitsAtComma | self.llama/common/arg.cpp:1371-1377 | a row splits at a comma exactly if what is before it does not end inside quotes |
| CsvRows.EveryRow | self.llama/common/arg.cpp:1347-1389 | every text is a row of chunks: bare, in quotes with text behind them, or in quotes never closed at the end |
| CsvRows.ParseExactly | self.llama/common/arg.cpp:1347-1389 | every text is read as the fields of its chunks, however it is divided into them; it ends inside quotes exactly if the last is never closed |
| Wrapping.AddLine | self.llama/common/arg.cpp:161-177 | the loop yields the greedy lines, or the line itself if it fits |
| Wrapping.BreakIntoLines | self.llama/common/arg.cpp:157-182 | all lines of the text, one after the other |
| Wrapping.WordsOfJoin | self.llama/common/arg.cpp:168-174 | words joined with spaces are read back as the same words |
| Wrapping.GreedyGroups | self.llama/common/arg.cpp:167-176 | the lines divide the words in order, each fitting or a single word |
| Wrapping.FewestLines | self.llama/common/arg.cpp:167-176 | no division into such lines is shorter |
| Wrapping.WrapLineMeaning | self.llama/common/arg.cpp:161-177 | all three for the text of an over-long line |
| Wrapping.LinesExactly | self.llama/common/arg.cpp:159-180 | the lines joined with newlines are the text less a final newline, and none holds one |
| Wrapping.WordsExactly | self.llama/common/arg.cpp:165-167 | words end at each of six separators and only there |
| Wrapping.BreakLinesExactly | self.llama/common/arg.cpp:161-180 | every line is wrapped by itself, and one that fits is kept as it is |
| Wrapping.FittingLines | self.llama/common/arg.cpp:157-182 | a text all of whose lines fit is only cut into lines |
| Argv.BuildIndex | self.llama/common/arg.cpp:771-779 | the map from spellings to options, later ones replacing earlier ones |
| Argv.IndexMeaning | self.llama/common/arg.cpp:771-779 | a spelling is found exactly if some option has it, and is positive exactly if not negated there |
| Argv.IndexLast | self.llama/common/arg.cpp:771-779 | of several options with one spelling the last is found |
| Argv.ParseCliArgs | self.llama/common/arg.cpp:813-875 | the handler loop yields Parse |
| Argv.ParamsToMap | self.llama/common/arg.cpp:1184-1246 | the map loop yields Collect |
| Argv.ParseUses | self.llama/common/arg.cpp:813-875 | the handler loop accepts exactly if the list spells out uses and the handlers accept them in order |
| Argv.CollectUses | self.llama/common/arg.cpp:1209-1243 | the map loop accepts exactly if the list spells out uses without two values, and records them in order |
| Argv.LoopsAgree | self.llama/common/arg.cpp:806-1243 | both loops read the same uses; one accepts without a two-value option exactly if the other does and the handlers do |
| Argv.RecordHoldsLast | self.llama/common/arg.cpp:1242 | the map holds the last value of every option used and leaves the rest |
| ArgvSpelling.NormalExactly | self.llama/common/arg.cpp:819-822 | an argument that begins with two hyphens is read with hyphens for its underscores, any other as it is |
| ArgvSpelling.SpellingIsFree | self.llama/common/arg.cpp:813-875 | two lists that differ only in _ against - within options that begin with two hyphens are read alike by both loops |
| ArgvSpelling.SpelledOut | self.llama/common/arg.cpp:813-875 | a list spells out uses exactly if it can be cut into options, each with as many values as it takes; they are what it says, values in order |
| ArgvSpelling.UsesExactly | self.llama/common/arg.cpp:813-875 | one option at a time: unknown, short of values, or a use followed by the uses behind it |
| ArgvSpelling.CollectExactly | self.llama/common/arg.cpp:1209-1243 | the same for the map loop, with its two refusals |
| ArgvSpelling.HandleInOrder | self.llama/common/arg.cpp:813-875 | handlers are called one after the other, up to the first that fails |

## Left out

- Reshaping.UndoPermuteMeaning: for weights whose rank and row size are positive and whose rows divide into heads of two equal halves, as the first reshape demands.
- Selecting.GetItemMeaning: slices are given as the increasing positions they keep, and tensors as indices are not modelled; integers in the last two places are Indexing.IntegersLast.
- Joining.CatNdOnlyAligned: for two or more parts that are not empty; whether other parts go together is Joining.CatNdProperExactly.
- Selecting.SplitUnnoticed: for splits into chunks of one size; a list of sizes along such an axis is not described.
- Number types, rounding and lazily evaluated tensors: entries are real numbers, and torch's operations are exact.
- The pairing of A and B entries while a LoRA file is read, and the writing of the result.
- GgmlFormat.ModelBack: token scores are their four bytes; the table of tensor types is a parameter with positive sizes; files are smaller than 2^63 bytes.
- GgmlLoader.LoadTensors: a loop that has not ended after the rounds given is given up; a data set of more bytes than a 64-bit integer counts is not described by GgmlFormat.AdvancesExactly.
- GgmlFormat.ParsedTiles: a name cut short by the end of the data only shortens the last record.
- Schedule.StepSafe: steps are atomic; interleavings inside a step, as between a handler thread and the poll loop, are not modelled.
- Schedule.ReachableSafe: identifiers drawn for jobs and tasks are new; an 8-character collision is not modelled.
- Schedule.RestartRecovers: entries of the state files that cannot be read, and times other than a job's creation time, are not modelled.
- Training and GPU tasks do not exclude each other: starting a job does not look at tasks, and a task of a caller does not look at other tasks. No such claim is made.
- Process identifiers, metrics, log files, partial output files, and signals to processes.
- Release.StepSafe: steps of a request are atomic; waiting for unloads changes no shared state and is one step.
- Releasing.WaitForModelsUnloaded: the clock is to pass the deadline in some round; sleeping between rounds is not modelled.
- Footprint.FreedIsWhatLeft: booleans published where byte counts are expected are not modelled; a name is listed as loaded once.
- Watchdog.Guard.Check: the restart itself and the search for orphaned workers.
- Times are integers on a clock that never goes back.
- Wrapping.BreakIntoLines: words and lines are read as C++ streams read them in the default locale.
- Argv.LoopsAgree: reading an integer value is part of the handler; warnings, environment variables and the system configuration are not modelled; every option has a first spelling.
- Argv.ParamsToMap: options are told apart by their first spelling, and the option object kept as key is not modelled.
- The table of command-line options, help output, completion and device handling.
- Segments and affixes work on characters; bytes of a multi-byte encoding are not told apart.
- HTTP, authentication, subprocesses, model download, metadata files and integrity sweeps.
