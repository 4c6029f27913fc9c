# Data transformations that must keep their meaning

This project models the parts of the repository that rewrite data and must not change what it says, and proves
that they do not. `dafny verify dfyconfig.toml` checks everything.

- **Marker tokenizer and diff split** (`Segments`, `DiffSplits`, over `Sequences`): two prompts are cut into a
  shared prefix, a shared suffix and what differs.
- **Tool-call text** (`Quotes`, `Json`, `Mapper`, `MapperRuns`, `MapperMessages`, `MapperJson`, `Gemma`,
  `GemmaValues`, `GemmaPartial`, over `JsonValues` and `JsonSplices`): quotes are normalized to JSON, tool calls are
  printed as JSON piece by piece while the model is still writing, and a Gemma 4 argument tree is printed so that
  everything received is sent and nothing sent is taken back. JSON is RFC 8259, sections 2 to 7: what is printed is
  read back by a reader for whole values, which does not depend on what stands behind a value.
- **LoRA factor pairs** (`Tensors`, `Loras`, `LoraParts`, `LoraTuples`, `LoraFirstAxis`, `LoraAccepted`): the base
  model's conversion code runs on a pair (A, B); it is said exactly which calls are accepted, and every operation
  commutes with the product, or it is said exactly when it does.
- **Weight re-layouts** (`HeadLayout`, `ValueHeads`, over `Arithmetic` and `Sums`): query and key rows interleaved
  per head, and value heads reordered across all tensors of a linear attention layer.
- **Vocabulary and experts** (`Bpe`, `Experts`): rank-capped byte pair merging, and expert weights that arrive in
  any order and leave as stacks.
- **Quantized blocks** (`Mxfp4`, `Q8`): two readings of MXFP4 nibbles (OCP Microscaling Formats Specification
  v1.0, sections 5.3.3 and 5.4.1), and the Q8_0 quantizer with its shard-by-shard writer.
- **Text codecs** (`Base64`, `Base64Texts`, `LineEditor`, `LineAnswers`, over `Bytes` and `Bits`): RFC 4648,
  sections 4 and 5, with alphabet detection and decoding in place, and the UTF-8 line editor with its stack of widths,
  RFC 3629, section 3, from the keys typed to the line handed back.

Code that changes state in place is written as classes, arrays and loops, each tied to a specification function;
the properties are then proved of those functions. Expressions over tensors are functions over shape and data.

## What the model takes as given

- The order in which the parser visits its tree is the order of the list of nodes. JSON string dumping is escaping
  as in RFC 8259, section 7.
- Tensor elements are reals, and an element type never matters. A shard of the streamed table is the list of its
  elements. How a step is rounded to half precision is a parameter.
- The width that the terminal reports for a displayed character is an arbitrary integer, part of the input.
- A tensor name is an expert weight with its block, expert and projection, some other name that contains
  "experts", or a name that does not.
- Shifts and masks on bytes are written as arithmetic. Where the source joins shifted parts with a bitwise or,
  `Bits.NibblesJoin` and `Bits.SextetsJoin` show on bit-vectors that the parts never overlap.

## Where the code does not do what is said of it

- `common/chat-auto-parser-helpers.h:21-23` promises a split into prefix, suffix and two differences. The branches
  at `common/chat-auto-parser-helpers.cpp:158-182` ignore the consumed flags that the loop set, so a family of
  inputs loses or doubles a segment; the split of `<a><b>` against `<a><b><b>` is empty. `CalculateDiffSplit` says
  for every input whether its texts are rebuilt.
- The flush of a pending call at `common/chat-peg-parser.cpp:226-235` never has one to list
  (`MapperRuns.PendingIsNeverNamed`).
- A string argument that never closes loses its closing quote when another argument opens
  (`common/chat-peg-parser.cpp:322-324`), and a further piece of a string that has no text writes a quote inside it
  (lines 345-348). `MapperJson.CallText` gives the text of every call, and `MapperJson.CallIsJson` leaves these out.
- An ellipsis at `convert_lora_to_gguf.py:79-91` becomes as many full slices as there are other subscripts, not as
  there are axes left (`LoraTuples.EllipsisAsMeant`). The subscript `[..., :n]` on three axes, as
  `convert_hf_to_gguf.py:6967-6968` makes it, cuts the middle axis of a pair (`LoraTuples.MiddleIsCut`,
  `LoraTuples.LastAxisNotCut`).
- A tuple at `convert_lora_to_gguf.py:97-110` does not slice the leading axes of A. With a slice of only a part of an
  axis that A has in full, the product has another shape than the result reports (`LoraTuples.TupleCommutes`,
  `LoraTuples.HalfIsNotCut`); nothing raises.
- A slice on the first axis at `convert_lora_to_gguf.py:70-72` cuts both factors by their own sizes. After a reshape
  A has size 1 there, and `pair[1:2]` leaves nothing of it (`LoraFirstAxis.FirstCommutes`,
  `LoraFirstAxis.SecondIsLost`).
- Concatenation at `convert_lora_to_gguf.py:204-212` joins factors that broadcast on the first axis as if they did
  not (`LoraFirstAxis.CatBothCommutes`). Two reshaped pairs no longer have the shape they report
  (`LoraFirstAxis.ReshapedDoNotJoin`), and with an empty pair in front the shape can be right and a weight wrong
  (`LoraFirstAxis.WeightsMixedUp`).
- `common/chat.cpp:1314-1316` takes numbers, truth values and nulls with the white space that `std::isspace` knows, and
  `common/chat-peg-parser.cpp:899-901` prints it. A vertical tab or a form feed among it makes the arguments of the
  call no JSON text (`GemmaValues.WholeIsJson`, `GemmaValues.TabIsPrinted`).
- `prepare_tensors` at `convert_hf_to_gguf.py:2399-2406` raises for a block that received some of its weights, but
  not for one that received none (`Experts.FinishIff`, `Experts.MissingBlockUnnoticed`).
- The docstring at `convert_hf_to_gguf.py:6604-6605` promises ggml's reading bit for bit. The code of negative zero
  is read as positive zero by ggml, and scale byte 255 is infinite in the converter and finite in ggml
  (`Mxfp4.ReadingsAgree` gives the exact condition).
- `append_utf8` adds no bytes for a number past the last code point, but its width is still stored, and the
  backspace meant for it takes the character before (`LineEditor.OutOfStep`; `LineEditor.InStepIff` says for every
  run when this happens).

## Model

| member | source | states |
|---|---|---|
| `Segments.SegmentizeMarkers` | common/chat-auto-parser-helpers.cpp:286-316 | the scanner's loop, with its flag, its opener and its last border, yields the tokenization of the text |
| `Segments.SegmentationReconstructs` | common/chat-auto-parser-helpers.cpp:286-316 | the segments concatenate back to the text, none is empty, and they form a tokenization: complete markers, text runs as long as possible, an unclosed opener swallowing the rest |
| `Segments.SegmentationUnique` | common/chat-auto-parser-helpers.cpp:286-316 | there is only one such tokenization: any list of segments with these properties that spells a text is the scanner's |
| `Segments.SegmentShape` | common/chat-auto-parser-helpers.cpp:297-314 | each segment is a complete marker, plain text or an unclosed rest, and what may follow it |
| `DiffSplits.CalculateDiffSplit` | common/chat-auto-parser-helpers.cpp:104-225 | for every pair of texts the split is pinned in all four parts: outside the failing family all shared segments are cut off, or use up the shorter side, and of two text remainders the longest common end goes to the suffix and then the longest common start to the prefix; both texts are rebuilt if and only if the guard of the failing branch is off on both sides, or is on for the left one and the last fix-up rescues it; equal texts give no difference |
| `DiffSplits.MatchEnds` | common/chat-auto-parser-helpers.cpp:120-156 | the four-cursor loop keeps the cursors on equal counts of matched segments and ends with a side down to one segment or with both ends stuck |
| `DiffSplits.ConsumedIffHalved` | common/chat-auto-parser-helpers.cpp:141-150 | the loop raises the consumed flag of one side alone exactly when all of that side's segments are shared with the longer side, half of them at either end |
| `DiffSplits.CommonPrefixLen` | common/chat-auto-parser-helpers.cpp:86-93 | the returned length is that of the longest common prefix |
| `DiffSplits.CommonSuffixLen` | common/chat-auto-parser-helpers.cpp:95-102 | the returned length is that of the longest common suffix |
| `DiffSplits.SplitTexts` | common/chat-auto-parser-helpers.cpp:189-200 | the text tail as the source computes it: the two helper scans, the suffix first |
| `DiffSplits.TextTailCuts` | common/chat-auto-parser-helpers.cpp:189-200 | the text tail moves the longest common end of the remainders to the suffix where both end in text, then the longest common start of what is left to the prefix where both start with text, and nothing else |
| `DiffSplits.TextCutUnique` | common/chat-auto-parser-helpers.cpp:189-200 | only one split moves the texts so |
| `DiffSplits.DifferencesDiffer` | common/chat-auto-parser-helpers.cpp:189-222 | in the finished split of any two texts outside the failing family, when neither side is used up: where both last remaining segments are text the differences do not end alike, and where both first ones are they do not start alike |
| `DiffSplits.TextTailReconstructs` | common/chat-auto-parser-helpers.cpp:189-200 | whatever the text flags, moving common characters to the suffix and then to the prefix loses none of them |
| `DiffSplits.CutReconstructs` | common/chat-auto-parser-helpers.cpp:158-187 | cutting equal segments off both ends leaves prefix, remainder and suffix that spell each text |
| `DiffSplits.FixUpReconstructs` | common/chat-auto-parser-helpers.cpp:202-222 | both final fix-ups keep a split that rebuilds its texts |
| `DiffSplits.OverrunLeft` | common/chat-auto-parser-helpers.cpp:202-222 | when the left side is used up with more text counted as shared than it has, the split rebuilds its texts only if the last fix-up applies |
| `DiffSplits.OverrunRight` | common/chat-auto-parser-helpers.cpp:202-222 | the same on the right side, where no fix-up can help |
| `DiffSplits.AbsorbCounts` | common/chat-auto-parser-helpers.cpp:158-182 | when the loop consumed neither side, the branches move nothing, or one matching segment to the suffix, or failing that one to the prefix, and the cut is then a longest one |
| `DiffSplits.AbsorbHalvedLeft` | common/chat-auto-parser-helpers.cpp:158-182 | when the loop already used up the left side, the branches, which ignore its flag, count one of its segments as shared a second time; otherwise the cut is a longest one |
| `DiffSplits.AbsorbHalvedRight` | common/chat-auto-parser-helpers.cpp:158-182 | the same for the right side used up by the loop |
| `DiffSplits.DistinctSegmentsReconstruct` | common/chat-auto-parser-helpers.cpp:104-225 | texts in which no segment repeats are always rebuilt |
| `DiffSplits.LostSegment` | common/chat-auto-parser-helpers.cpp:158-182 | a concrete pair that is not rebuilt: the split reports no difference between <a><b> and <a><b><b> |
| `Quotes.NormalizeQuotesToJson` | common/chat-peg-parser.cpp:84-161 | the flag-driven scanner writes the normal form of its input |
| `Quotes.NormalizedKeepsTokens` | common/chat-peg-parser.cpp:84-161 | read as JSON, the output says character by character what the input says with both styles of quotes: the same characters outside strings, the same contents inside |
| `Quotes.NormalizedIsUnique` | common/chat-peg-parser.cpp:84-161 | no other text says in JSON what the input says, so the output is determined by its meaning |
| `Quotes.PrintTokens` | common/chat-peg-parser.cpp:84-161 | reading as JSON loses nothing: a text is rebuilt from its tokens |
| `Quotes.NormalizedFixed` | common/chat-peg-parser.cpp:84-161 | exactly the texts without a single quote outside strings are left alone |
| `Quotes.NormalizedTwice` | common/chat-peg-parser.cpp:84-161 | normalizing twice is normalizing once |
| `Quotes.JsonBraceDepth` | common/chat-peg-parser.cpp:42-68 | the scan with its two flags returns opening minus closing braces outside strings |
| `Quotes.NormalizedBraces` | common/chat-peg-parser.cpp:42-68 | the brace depth of the normalized text is the net count of braces outside both kinds of quotes in the input |
| `Json.DumpComplete` | common/chat-peg-parser.cpp:70-77 | text written for any string closes its quotes and leaves nothing open |
| `JsonSplices.StringReads` | common/chat-peg-parser.cpp:70-77 | it reads as that string in front of anything that may follow a value |
| `Json.ReadWritten` | common/chat-peg-parser.cpp:326-366 | an object written member by member reads back as its members, in order, for all names and all complete values |
| `JsonSplices.ObjectIsRead` | common/chat-peg-parser.cpp:326-397 | an object written from names and closed value texts is a JSON text if and only if each value text is one, and is then read as the names with these values, in order; the reader follows RFC 8259 with arrays, objects, numbers, strings and white space |
| `Json.NestedIffScanned` | common/chat-peg-parser.cpp:356-363 | a value is complete exactly when its brackets nest and its strings are closed |
| `Json.NormalizedComplete` | common/chat-peg-parser.cpp:218-220 | a container with either style of quotes is complete, once normalized, exactly when its own tokens nest |
| `Json.BracesOpen` | common/chat-peg-parser.cpp:42-68 | the brackets that a scan leaves open account for the braces it read |
| `Json.OpenDepth` | common/chat-peg-parser.cpp:387-389 | the brace depth of an arguments text that is still open is one, whatever its members hold |
| `Mapper.ChatMapper.Map` | common/chat-peg-parser.cpp:253-398 | one node takes the mapper's fields to the state that the transition function gives |
| `Mapper.ChatMapper.MapInCall` | common/chat-peg-parser.cpp:288-373 | the same for the nodes that belong to the current call |
| `Mapper.ChatMapper.SetName` | common/chat-peg-parser.cpp:296-311 | the name takes over the buffered arguments and lists the pending call |
| `Mapper.ChatMapper.Close` | common/chat-peg-parser.cpp:375-397 | closing ends an open string and open braces, and drops a call that was never named |
| `MapperRuns.ArgsTargetLaws` | common/chat-peg-parser.cpp:214-216 | what is put into the arguments' place is what is read there, the last text put stays, and putting back what is there changes nothing; the place is the buffer until the call has a name, and then the call's own text, whatever the buffer holds |
| `MapperRuns.RunWritesArgs` | common/chat-peg-parser.cpp:214-216 | a run of argument nodes of any length writes in one place only: the buffer while the call has no name, and that call's arguments afterwards; every other call and field, the name and the id too, is left as it was |
| `Mapper.ChatMapper.FromAst` | common/chat-peg-parser.cpp:222-251 | a run over all nodes, then the flush, gives the state of the run |
| `Mapper.TrimNameDrops` | common/chat-peg-parser.cpp:36-38 | a name is taken without one white space character before it and without any after it, and nothing else is dropped |
| `Mapper.TrimValueDrops` | common/chat-peg-parser.cpp:342 | a value is taken without one white space character before it and one after it, and nothing else is dropped |
| `Mapper.CloseBraces` | common/chat-peg-parser.cpp:387-389 | as many braces are added as the depth is positive |
| `MapperRuns.RunConsistent` | common/chat-peg-parser.cpp:253-398 | in every run a pending call is the current one, is unnamed and has no arguments, and a listed current call is the last listed |
| `MapperRuns.NextConsistent` | common/chat-peg-parser.cpp:253-398 | every single node keeps that |
| `MapperRuns.PendingIsNeverNamed` | common/chat-peg-parser.cpp:226-235 | so no pending call is ever named, and the flush after a run never has a call to list |
| `MapperRuns.ListedNames` | common/chat-peg-parser.cpp:280-311 | exactly the openings that see a name before the next opening give a call, in order, each under the last name it sees |
| `MapperRuns.NameCommutes` | common/chat-peg-parser.cpp:296-373 | naming a call before or after an argument node makes no difference to any field |
| `MapperRuns.NameAnywhere` | common/chat-peg-parser.cpp:296-373 | so the name may come anywhere among argument nodes whose values follow their names |
| `MapperRuns.NamePosition` | common/chat-peg-parser.cpp:296-373 | the finished state is the same wherever the name node stands |
| `MapperMessages.MessageTexts` | common/chat-peg-parser.cpp:237-266 | after every run the content is the texts of the content nodes, one after the other, and the reasoning that of the reasoning nodes, unless these hold nothing but blanks |
| `MapperMessages.ListedHeads` | common/chat-peg-parser.cpp:280-311 | after every run the listed calls are the openings that see a name before the next one, in order, each with the last name and the last id it saw, the id without its quotes |
| `MapperMessages.JsonCall` | common/chat-peg-parser.cpp:280-397 | a call whose name, id and arguments text come in any order and any number of times is listed with the last of each, or not listed without a name; its arguments are exactly the trimmed text if that is closed, and an empty object if none came |
| `MapperMessages.NameAndArgs` | common/chat-peg-parser.cpp:313-320 | in particular an opening, a name and an arguments text in either order, and a closing give the call with exactly that text |
| `MapperJson.OpenCallText` | common/chat-peg-parser.cpp:296-373 | while a tagged call is still being read, its arguments are an opening brace and the texts of the arguments received so far, for all arguments, wherever the name stood |
| `MapperJson.CallText` | common/chat-peg-parser.cpp:253-397 | closed, every tagged call is listed with that text, the quote that is due and the braces that are open, also when a string never closed or a value is no JSON |
| `MapperJson.CallIsJson` | common/chat-peg-parser.cpp:253-398 | for every run of an opening, any arguments, a name at any place and a closing: one call is added, and its arguments read back as one JSON object with the trimmed names and the texts of their values, in order |
| `MapperJson.CallIsValue` | common/chat-peg-parser.cpp:253-398 | for every such run the arguments of the call are a JSON text if and only if every value that is not declared a string is one after its quotes are normalized, and are then read as the object of the trimmed names with the strings and values, in order |
| `MapperJson.WriteArg` | common/chat-peg-parser.cpp:322-373 | the nodes of one argument write its text: a comma if it is not the first, the quoted name, and the raw, normalized or quoted and escaped value in all its pieces |
| `MapperJson.WriteAll` | common/chat-peg-parser.cpp:322-373 | the nodes of all arguments write their texts in order, and the quote that is then due is that of an unclosed last string |
| `MapperJson.CloseCall` | common/chat-peg-parser.cpp:375-397 | closing a call writes the quote that is due and a brace for each that is open, whatever was written |
| `MapperJson.StringReadsBack` | common/chat-peg-parser.cpp:341-355 | a string value in one piece or more reads back as its trimmed pieces, put together |
| `MapperJson.ContainerComplete` | common/chat-peg-parser.cpp:356-363 | a container value is complete in the output exactly when its brackets nest and its strings, in either style, are closed |
| `MapperJson.ArgIsMember` | common/chat-peg-parser.cpp:341-373 | what is written for an argument, with the quote that may still be due, is the member of its trimmed name and its value, the pieces of a string put together |
| `Gemma.JsonGrows` | common/chat-peg-parser.cpp:892-985 | when a tree grows along its right spine, what was printed for it is a prefix of what is printed afterwards |
| `Gemma.EscapeGrows` | common/chat-peg-parser.cpp:903-905 | escaping more text only adds to the escaped text |
| `Gemma.StreamIsStable` | common/chat-peg-parser.cpp:892-985 | over a whole stream of trees nothing that was printed is taken back |
| `GemmaValues.WholeIsJson` | common/chat-peg-parser.cpp:892-985 | a finished tree prints as one JSON text that a reader after RFC 8259 reads as the value of the tree, lists, dictionaries, strings and scalars at any depth, if and only if no scalar has a vertical tab or a form feed behind it; otherwise it prints as no JSON text |
| `GemmaValues.ElementsRead` | common/chat-peg-parser.cpp:917-934 | the elements of an array read back as their values, in order |
| `GemmaValues.PairsRead` | common/chat-peg-parser.cpp:936-975 | the members of a dictionary read back as their key names with the values, in order |
| `GemmaValues.ScalarReads` | common/peg-parser.cpp:1297-1328 | a number, a truth value or a null reads back from its text, into which the parser takes the white space behind it |
| `GemmaValues.TabIsPrinted` | common/peg-parser.cpp:619-631 | a concrete finished tree that prints as no JSON text: the parser takes a vertical tab for white space |
| `GemmaPartial.MissingText` | common/chat-peg-parser.cpp:892-985 | for a tree cut at any place, inside a number, a key, a string or a bracket at any depth: what would be printed had the text ended there is what is printed and exactly the quote, the key's end and the brackets that are open, so everything received is printed |
| `GemmaPartial.NothingMissing` | common/chat-peg-parser.cpp:892-985 | nothing is missing from a tree that is not partial |
| `GemmaPartial.FinishIsWhole` | common/chat-peg-parser.cpp:892-985 | a tree cut inside a string, an array or a dictionary, ended there, is a finished tree |
| `GemmaPartial.ReceivedIs` | common/chat-peg-parser.cpp:892-985 | and its value is the value as far as it was received |
| `GemmaPartial.PartialReads` | common/chat-peg-parser.cpp:892-985 | what is printed of such a tree, with its open quote and brackets closed, is read by a reader after RFC 8259 as the value received so far, and as no JSON text exactly when a scalar has a vertical tab or a form feed behind it |
| `JsonValues.NumberEnd` | common/peg-parser.cpp:1297-1309 | every number of the grammar is read whole in front of anything that cannot make it longer |
| `JsonSplices.NumberRead` | common/peg-parser.cpp:1297-1309 | and whatever is read as a number is one of the grammar |
| `Gemma.WholeCloses` | common/chat-peg-parser.cpp:892-985 | in the printed text of a finished tree brackets nest and strings are closed |
| `Gemma.DictReadsBack` | common/chat-peg-parser.cpp:930-976 | the arguments of a finished call read back as the members of their dictionary, in order |
| `Loras.ReshapeCommutes` | convert_lora_to_gguf.py:128-158 | whenever the pair accepts a shape, with or without -1, the product of the new pair is the reshaped product, unless the element count changed, which only a pair of rank zero lets happen |
| `Loras.PermuteCommutes` | convert_lora_to_gguf.py:160-171 | whenever the pair accepts an order of axes, the product of the new pair is the permuted product, in both supported cases |
| `Loras.TransposeCommutes` | convert_lora_to_gguf.py:173-180 | exchanging two axes of the pair, counted from either end, exchanges them in the product |
| `Loras.TransposeMatrix` | convert_lora_to_gguf.py:167-168 | a matrix product is transposed by transposing both factors and exchanging them |
| `LoraAccepted.PermuteAccepted` | convert_lora_to_gguf.py:160-171 | an order of axes is accepted if and only if it has each axis once, counted from either end, and the last stays last with all leading axes of A equal to 1, or the pair is a matrix and its axes change places; what is not implemented is just to move the last of more than two axes |
| `LoraAccepted.TransposeAccepted` | convert_lora_to_gguf.py:173-177 | two axes may be exchanged if and only if both are there and the pair is a matrix, or all leading axes of A are 1 and the last axis stays |
| `LoraAccepted.ReshapeAccepted` | convert_lora_to_gguf.py:128-152 | a shape, with sizes left open or not, is accepted if and only if some shape fits it that keeps the row size and, unless the rank is zero, the number of rows, with each open size times the given ones the number of elements, and A is the same for all leading axes or has no element |
| `LoraAccepted.StackAccepted` | convert_lora_to_gguf.py:196-203 | pairs may be stacked if and only if there is one and the factors have the same shapes |
| `LoraAccepted.CatAccepted` | convert_lora_to_gguf.py:204-219 | matrix pairs may be concatenated if and only if all have the same A |
| `LoraAccepted.CatBothAccepted` | convert_lora_to_gguf.py:204-212 | pairs of more than two axes may be concatenated if and only if their factors agree on all axes but the first |
| `LoraAccepted.RowsAccepted` | convert_lora_to_gguf.py:70-74 | a slice of a matrix pair is always accepted |
| `LoraAccepted.FirstAccepted` | convert_lora_to_gguf.py:64-72 | one subscript on more than two axes: a slice always, an integer if and only if both factors have that place |
| `LoraAccepted.TupleAccepted` | convert_lora_to_gguf.py:75-110 | a tuple with slices for the last two axes is accepted if and only if each integer counts a place of the axis it stands for |
| `Loras.MergedAt` | convert_lora_to_gguf.py:119-122 | an element of the product is the sum over the rank, with the leading axes of A broadcast |
| `Loras.FlatMerged` | convert_lora_to_gguf.py:147-152 | with nothing to broadcast, the product is that of two flat matrices |
| `LoraTuples.ItemsCommute` | convert_lora_to_gguf.py:75-110 | indexing with any tuple that the pair accepts, and that leaves slices for the last two axes once ellipses are replaced: the product has the shape that the result reports if and only if on every leading axis the subscript is an integer, the factors have one size and the slice takes all of it, or A has size 1; and then it is what the tuple selects from the weight |
| `LoraTuples.TupleCommutes` | convert_lora_to_gguf.py:96-110 | the same for tuples with one subscript an axis, for every pair whose product has the shape it reports, with leading axes of A of any size |
| `LoraTuples.HalfIsNotCut` | convert_lora_to_gguf.py:97-110 | a concrete accepted tuple that slices a part of an axis A has in full, with a result whose product has another shape than it reports |
| `LoraTuples.KeptIffSpreads` | convert_lora_to_gguf.py:97-106 | by induction over the leading axes: what is left of them in both factors broadcasts exactly when each was selected alike |
| `LoraTuples.LeadsAlike` | convert_lora_to_gguf.py:97-106 | selecting on the leading axes of A, an integer counted modulo its axis and a slice replaced by the whole axis, commutes with clipping an index to axes of size 1 |
| `LoraTuples.TupleShape` | convert_lora_to_gguf.py:93-110 | the result has the shape of the selection |
| `LoraTuples.IntegersRefused` | convert_lora_to_gguf.py:97-110 | a tuple with an integer among its last two subscripts is refused unless both are integers and the last leading axis that A keeps is as long as the rank, and then the result has one axis too many |
| `LoraParts.RowsCommute` | convert_lora_to_gguf.py:70-74 | a slice of a matrix pair is that slice of the rows of its product |
| `LoraFirstAxis.FirstCommutes` | convert_lora_to_gguf.py:64-72 | on a pair of more than two axes, an integer on the first axis selects from the product; a slice does so if and only if it picks one place of the first axis of A or as many as of B, and otherwise the product has not the shape that the result reports |
| `LoraFirstAxis.SecondIsLost` | convert_lora_to_gguf.py:64-72 | a concrete pair, as a reshape makes it, and a slice for its second weight, with a result that reports one weight and has none |
| `LoraFirstAxis.CatBothCommutes` | convert_lora_to_gguf.py:204-212 | concatenating any number of pairs of more than two axes gives a pair whose product has the shape it reports if and only if the first axes of all A have one place together or as many as those of all B; the product is the concatenation of the weights when they have one place, and when every pair has the first axis of both factors alike, which is the only other case if no first axis is empty |
| `LoraFirstAxis.OnePlaceCommutes` | convert_lora_to_gguf.py:204-212 | with one place in the first axes of all A together one pair has it and the others are empty, and the product is the concatenation |
| `LoraFirstAxis.ReshapedDoNotJoin` | convert_lora_to_gguf.py:204-212 | two concrete reshaped pairs that are accepted and joined to a pair that reports four weights where the factors give two and four |
| `LoraFirstAxis.WeightsMixedUp` | convert_lora_to_gguf.py:204-212 | a concrete accepted list, with an empty pair in it, for which the product has the right shape and a wrong element |
| `LoraParts.StackCommutes` | convert_lora_to_gguf.py:196-203 | stacking pairs stacks their products |
| `LoraParts.CatCommutes` | convert_lora_to_gguf.py:204-219 | concatenating matrix pairs with equal A concatenates their products, for any number of pairs |
| `LoraTuples.ItemsAreTuple` | convert_lora_to_gguf.py:75-94 | every tuple is refused, when it is nothing but ellipses or names an axis too many, or is indexing with one subscript an axis |
| `LoraTuples.EllipsisAsMeant` | convert_lora_to_gguf.py:77-94 | an ellipsis between other subscripts selects what it is meant to from every weight that both readings fit exactly when it stands for as many axes as there are other subscripts, or when each subscript behind it always takes its whole axis |
| `LoraTuples.ReadEllipsis` | convert_lora_to_gguf.py:77-94 | what the code puts in its place otherwise |
| `LoraTuples.TrailingEllipsis` | convert_lora_to_gguf.py:76-94 | at the end of a tuple it is dropped and becomes the axes that are left, as it is meant |
| `LoraTuples.EllipsisRefused` | convert_lora_to_gguf.py:77-94 | with more than half as many other subscripts as axes the tuple is refused |
| `LoraTuples.MiddleIsCut` | convert_hf_to_gguf.py:6967-6968 | on three axes a slice behind an ellipsis cuts the middle axis, where the last is meant |
| `LoraTuples.LastAxisNotCut` | convert_lora_to_gguf.py:77-94 | a concrete accepted pair for which the result has another shape than the selection that is meant |
| `HeadLayout.PermutedRow` | convert_hf_to_gguf.py:1743-1749 | reshape, swap and reshape back put at row r the row that the per-head interleaving names, for weights of any rank |
| `HeadLayout.SourceRowBijective` | convert_hf_to_gguf.py:1743-1749 | the interleaving is a bijection of the rows, with the inverse given, and keeps every row in its head |
| `HeadLayout.PermuteHeadsCommutes` | convert_hf_to_gguf.py:1743-1749 | run on a factor pair, the three steps permute the heads of the weight that the pair stands for |
| `HeadLayout.MatrixAccepted` | convert_hf_to_gguf.py:1743-1749 | a pair for a matrix whose rows split into heads is never refused on the way |
| `HeadLayout.HeadVectorPermuted` | convert_hf_to_gguf.py:1743-1749 | a head of the permuted weight gives the activations of the same head, interleaved |
| `HeadLayout.AttentionUnchanged` | convert_hf_to_gguf.py:4378-4386 | for every head size, head count and key-value head count, every dot product of a query head with a key head is what it was |
| `Sums.SumPermuted` | convert_qwen4exp.py:25 | a sum does not depend on the order of its terms, for every permutation of them |
| `ValueHeads.TableIsTranspose` | convert_qwen4exp.py:25 | numbering, reshaping, transposing and flattening give the table that sends engine head i to source head (i mod g) * r + i / g |
| `ValueHeads.HeadTablePermutes` | convert_qwen4exp.py:25 | the table is a permutation of the heads |
| `ValueHeads.KeyHeadKept` | convert_qwen4exp.py:23-25 | every engine head uses the key head that its source head used |
| `ValueHeads.RelayoutChunks` | convert_qwen4exp.py:593-597 | cut again, the re-laid rows are the heads' rows in table order |
| `ValueHeads.PermVParts` | convert_qwen4exp.py:516-520 | the leading rows stay and the heads behind them are reordered |
| `ValueHeads.DataKept` | convert_qwen4exp.py:589-614 | across all tensors, what an engine head computes with is what its source head computed with |
| `ValueHeads.LayerUnchanged` | convert_qwen4exp.py:589-614 | every output of the layer, the sum over heads of output columns against any function of the head's data, is unchanged |
| `Bpe.Merge` | convert_hf_to_gguf.py:2303-2318 | the two nested loops compute the run of the token: always the leftmost pair of least rank, until none is under the cap |
| `Bpe.Best` | convert_hf_to_gguf.py:2306-2312 | the pair found is the leftmost one of least rank, and none is found only if no pair has a rank |
| `Bpe.RunMerges` | convert_hf_to_gguf.py:2303-2318 | a run goes from its parts to its end by single merges, each of the leftmost of the neighbouring pairs of least rank and under the cap, and ends where no pair under the cap is left |
| `Bpe.RunKeepsToken` | convert_hf_to_gguf.py:2303-2318 | the parts always join to what they started from, and none is empty |
| `Bpe.RunRanksParts` | convert_hf_to_gguf.py:2303-2318 | every part of more than one byte is a token ranked under the cap |
| `Bpe.RunStopsAtCap` | convert_hf_to_gguf.py:2313-2314 | when a run stops, no two neighbours join to a token ranked under the cap |
| `Bpe.RunResumes` | convert_hf_to_gguf.py:2303-2318 | a run with a larger cap, or with none, is the run with the smaller cap, resumed |
| `Bpe.TwoPartsJoin` | convert_hf_to_gguf.py:843-849 | if the run capped at a token's rank leaves two parts, one more rank gives exactly the token |
| `Bpe.TwoPartsIff` | convert_hf_to_gguf.py:843-849 | with distinct ranks the assertion in the vocabulary loop holds if and only if the run with one more rank gives the token back |
| `Bpe.MergeList` | convert_hf_to_gguf.py:843-849 | the loop fails exactly when some longer token's run does not leave two parts; otherwise each rule makes its token out of single bytes and tokens of lower rank |
| `Bpe.RuleMakes` | convert_hf_to_gguf.py:847-849 | one such rule joins to its token |
| `Experts.Qwen2MoeModel.ModifyTensors` | convert_hf_to_gguf.py:2363-2397 | one arrival changes buffers and output as the step says, with each error in its place |
| `Experts.Qwen2MoeModel.Drain` | convert_hf_to_gguf.py:2375-2393 | a full buffer gives its three stacks and loses what went into them, or the first missing or unequal tensor is an error |
| `Experts.Qwen2MoeModel.Take` | convert_hf_to_gguf.py:2379-2384 | the weights of one projection leave the buffer in expert order |
| `Experts.Qwen2MoeModel.PrepareTensors` | convert_hf_to_gguf.py:2399-2406 | the run over all arrivals and the check of the buffers at its end |
| `Experts.FullByCount` | convert_hf_to_gguf.py:2374 | counting decides: a buffer of its block's own weights is complete exactly when it holds three times the expert count |
| `Experts.RunBuffers` | convert_hf_to_gguf.py:2363-2395 | after any arrivals in any order, every buffer holds just what its unfinished block has received, and no step fails |
| `Experts.StepExpert` | convert_hf_to_gguf.py:2363-2395 | one weight joins its buffer or, when it completes the block, releases the three stacks |
| `Experts.RunOutputs` | convert_hf_to_gguf.py:2363-2395 | a block has emitted its three stacks, once and in expert order, if all its weights have arrived and nothing otherwise; other tensors pass through in order |
| `Experts.NothingIsLost` | convert_hf_to_gguf.py:2363-2406 | a complete set in any order, interleaved across blocks, converts, with every block's stacks and every other tensor in the output |
| `Experts.OrderDoesNotMatter` | convert_hf_to_gguf.py:2363-2406 | two orders of the same arrivals give every block the same stacks and end alike |
| `Experts.FinishIff` | convert_hf_to_gguf.py:2399-2406 | the conversion succeeds exactly when every block received all of its weights or none; otherwise the error names just the weights of the incomplete blocks |
| `Experts.SuccessMeansOwn` | convert_hf_to_gguf.py:2363-2406 | a conversion of any arrivals, repeated and misnamed ones included, that ends well had only weights of its blocks' experts under their own block's number: any other expert name is refused or reported at the end |
| `Experts.MissingBlockUnnoticed` | convert_hf_to_gguf.py:2399-2406 | a concrete run in which a whole block is missing and no error is raised |
| `Mxfp4.RepackKeepsCodes` | convert_hf_to_gguf.py:6574-6600 | in a packed row ggml's order finds, value by value, the code and the scale byte of the source |
| `Mxfp4.PackInjective` | convert_hf_to_gguf.py:6574-6600 | different weights or scales never give the same blocks |
| `Mxfp4.UnpackRow` | convert_hf_to_gguf.py:6619-6625 | the direct reading gives at every place the table entry of the source nibble times its block's scale |
| `Mxfp4.RowCodes` | convert_hf_to_gguf.py:6620-6622 | the low nibbles fill the even places and the high ones the odd |
| `Mxfp4.Unpack` | convert_hf_to_gguf.py:6603-6625 | both directions refuse the same shapes, and every value is read from its own nibble and scale |
| `Mxfp4.DequantizeRow` | pxa/pxq4/kernels-src/gguf_to_vllm_oracle.c:187-199 | ggml's row reader writes at every place the value of the nibble and the scale that its block order names |
| `Mxfp4.TableIsFormat` | convert_hf_to_gguf.py:6365-6367 | the sixteen table entries are the values of the format's sign, exponent and mantissa fields |
| `Mxfp4.TablesDouble` | pxa/pxq4/kernels-src/gguf_to_vllm_oracle.c:144 | ggml's table is twice the converter's, except that it has no negative zero |
| `Mxfp4.Scales` | pxa/pxq4/kernels-src/gguf_to_vllm_oracle.c:135-140 | ggml's scale is half of the converter's for every scale byte but 255, where the converter's is infinite |
| `Bits.NibblesJoin` | convert_hf_to_gguf.py:6598 | on bits the two nibbles of a packed byte never overlap |
| `Mxfp4.ReadingsAgree` | convert_hf_to_gguf.py:6603-6625 | the two readings give the same bits exactly when the code is not the negative zero and, under scale byte 255, not one of the other codes of magnitude 0 or 0.5 |
| `Mxfp4.ReadingsSameNumber` | convert_hf_to_gguf.py:6603-6625 | under every other scale byte they are the same number |
| `Mxfp4.RepackAgrees` | convert_hf_to_gguf.py:6574-6625 | so repacking and letting ggml read gives what the direct dequantization gives, under that same condition and no other |
| `Q8.CodeIsNear` | convert_qwen4exp.py:98-111 | every code is within 127, and what it stands for is within half a step of the element |
| `Q8.LargestIsExact` | convert_qwen4exp.py:98-111 | the element of largest magnitude gets the code 127 or -127 |
| `Q8.Requantized` | convert_qwen4exp.py:98-111 | quantizing what a block stands for gives the block again |
| `Q8.Rint` | convert_qwen4exp.py:107 | the nearest integer, with halves going to the even one |
| `Q8.ReadIsNear` | convert_qwen4exp.py:108-111 | a reader of the bytes is off by at most half the exact step and 127 times the error of the stored step |
| `Q8.EncodedBlock` | convert_qwen4exp.py:108-111 | block j of the bytes is block j of the elements |
| `Q8.Quantize` | convert_qwen4exp.py:98-111 | the quantizer fills its output with the encoding of every block, and refuses exactly the lengths that are not whole blocks |
| `Q8.WriteBlock` | convert_qwen4exp.py:108-111 | one block's two step bytes and 32 codes are written, behind what is there |
| `Q8.EncodedAppend` | convert_qwen4exp.py:94-111 | encoding a concatenation of whole blocks is concatenating the encodings |
| `Q8.ShardStreamQ8.ToFile` | convert_qwen4exp.py:124-136 | shard by shard, the file gains the encoding of the concatenated table; the assertion holds exactly when all shards are whole blocks and the count is the declared one |
| `Q8.CountIsDeclared` | convert_qwen4exp.py:494-496 | the declared count is written exactly when the shards hold as many elements as the table |
| `Base64.Encode` | common/base64.hpp:79-144 | the encoder's loop spells the sextets of the 24-bit groups, padded, in the chosen alphabet, and writes exactly the size that is asked for |
| `Base64.EncodingSize` | common/base64.hpp:338-341 | the required size is the length of the encoding |
| `Base64.RequiredEncodeSize` | common/base64.hpp:338-341 | four times the number of started groups of three |
| `Base64.MaxDecodeSize` | common/base64.hpp:324-327 | three times the number of started groups of four |
| `Base64.ShiftsAndMasks` | common/base64.hpp:93-141 | the four shift-and-mask expressions are the digits of the 24-bit group |
| `Base64.Decode` | common/base64.hpp:199-244 | the decoder's bit-shifting loop computes the bytes of the 24-bit groups, with the padding rule of the behavior |
| `Base64.BytesNext` | common/base64.hpp:217-227 | one more sextet completes one more byte, made of the held bits and the new ones, unless it starts a group |
| `Bits.SextetsJoin` | common/base64.hpp:219 | on bits the two shifted parts never overlap |
| `Base64.DecodingSize` | common/base64.hpp:324-327 | k symbols give the whole part of 6k/8 bytes, never more than the caller is told to reserve |
| `Base64.DecodeInPlace` | common/base64.hpp:294-313 | with output over input the front of the buffer becomes the decoding of what was there, and no place behind the output is written, so only places already read are |
| `Base64.RoundTrip` | common/base64.hpp:79-244 | decoding an encoding gives the bytes back: either alphabet, named or detected, either behavior, padded or with any part of the padding stripped |
| `Base64.BytesOfSextets` | common/base64.hpp:79-244 | the bytes of a byte string's sextets are the byte string |
| `Base64.SymbolValues` | common/base64.hpp:344-389 | every symbol has its own value, and detection settles on an alphabet only at its last two symbols |
| `Base64.SpelledReadsBack` | common/base64.hpp:344-389 | a spelled text reads back under its alphabet and under detection |
| `Base64.Detection` | common/base64.hpp:344-389 | detection accepts exactly the texts that one of the two alphabets accepts, with the same values, and refuses texts that mix them |
| `Base64Texts.SymbolTable` | common/base64.hpp:84-86 | the symbols are those of the two tables of the standard |
| `Base64Texts.AcceptedIff` | common/base64.hpp:199-244 | a text is accepted if and only if it has the symbols of one alphabet up to the first padding, of the named one if one is named, and unless decoding is loose nothing but padding from there on |
| `Base64Texts.DecodedAt` | common/base64.hpp:210-232 | every decoded byte has the bits of the two sextets it lies across |
| `Base64Texts.SextetAt` | common/base64.hpp:93-141 | every sextet written has the bits of the bytes it lies across, with zero bits behind the last byte |
| `LineEditor.Buffer.AppendUtf8` | common/console.cpp:315-333 | the bytes of the code point are added, none for a number past the last code point |
| `LineEditor.Buffer.PopBackUtf8Char` | common/console.cpp:336-350 | the loop over at most three continuation bytes removes the last character |
| `LineEditor.Utf8ReadsBack` | common/console.cpp:315-333 | a reader that follows the standard finds the code point again, whatever follows it, and refuses exactly the surrogates |
| `LineEditor.EncodedReadsBack` | common/console.cpp:315-333 | an encoded text reads back whole |
| `LineEditor.PopUndoesAppend` | common/console.cpp:336-350 | removing takes the whole last character and nothing before it, on any line |
| `LineEditor.PopInStep` | common/console.cpp:392-404 | taking one character off keeps line and widths in step exactly when it was a code point or no byte is left |
| `LineEditor.EraseInStep` | common/console.cpp:392-405 | a whole backspace keeps them in step exactly when each character it takes is a code point or those that stay have no bytes |
| `LineEditor.InStepIff` | common/console.cpp:352-421 | whatever is typed, line and widths are in step after every edit of a run if and only if each backspace in it meets that condition |
| `LineEditor.ErasedCellsAre` | common/console.cpp:392-405 | backspace takes the zero-width characters at the end and the one visible character before them |
| `LineEditor.StaysInStep` | common/console.cpp:352-421 | through every run of typed code points, escapes and backspaces the line is the encoding of what is on it, with one width for each character |
| `LineEditor.OutOfStep` | common/console.cpp:406-414 | a concrete run that breaks this with a number past the last code point |
| `LineEditor.Console.ReadlineAdvanced` | common/console.cpp:352-453 | the loop, whose flag is always whether the line ends in a backslash or slash, returns the line and the answer that the keys before it decide; `LineAnswers.LineAnswer` says which |
| `LineEditor.Console.SkipEscape` | common/console.cpp:382-391 | an escape sequence is read up to its final letter, tilde or the end of the stream |
| `LineEditor.Console.EraseBack` | common/console.cpp:392-405 | the do-while of the backspace on line and widths |
| `LineEditor.Console.CloseLine` | common/console.cpp:423-449 | the special character and the newline on the bytes, and the answer whether more is to come, as `LineAnswers.LineAnswer` says |
| `LineEditor.ClosedText` | common/console.cpp:423-449 | closing the bytes is closing the characters |
| `LineEditor.LineIsText` | common/console.cpp:352-453 | the line handed back is the encoding of the characters on screen, closed, and reads back as them |
| `LineAnswers.LineAnswer` | common/console.cpp:352-453 | for every sequence of keys: a backslash at the end becomes a newline and more is to come exactly when multiline is off; a slash at the end goes, with a single space before it, and no more is to come; otherwise at the end of the stream nothing is added and no more is to come, and Enter adds a newline and more is to come exactly when multiline is on |
| `LineAnswers.TypedAnswer` | common/console.cpp:352-453 | the same for a text typed and ended with Enter or by the end of the stream, in its own characters |
| `LineAnswers.EscapeIgnored` | common/console.cpp:382-391 | an escape with one character, or with a control sequence up to its final letter or tilde, anywhere among the keys changes neither the line nor the answer and takes none of the keys behind it |
| `LineAnswers.ErasesTyped` | common/console.cpp:392-405 | a visible character typed, any characters without width, and a backspace leave the line and the answer as if none of these keys had been pressed |

## Left out

- LoraTuples.TupleCommutes: demands slices as the last two subscripts. With an integer there the tuple is refused
  or its result has another number of axes than the selection (`LoraTuples.IntegersRefused`).
- LoraFirstAxis.CatBothCommutes: with an empty first axis, as many places in all A as in all B, more than one of
  them, and some pair that broadcasts there, the shape is right and the elements are not stated; they depend on
  the numbers.
- GemmaValues.WholeIsJson: a number is read as its spelling, because the code never computes with it.
- The parser engine and the grammar and template code around it, which only compose combinators: the mapper's
  input is a list of nodes.
- Invalid UTF-8 in JSON strings, for which the dumping library throws; texts are sequences of characters. Reading
  back a surrogate pair written as two escapes is not modelled either; the writer never writes one.
- A node that reaches for a current call that was dropped: the source has no defined behaviour there, and runs are
  taken without it.
- The visitor of the Gemma 4 mapper that picks names and contents out of the tree
  (`common/chat-peg-parser.cpp:987-1024`); only the printing of the arguments is stated.
- The whitespace and substring helpers of `common/chat-auto-parser-helpers.cpp`: easy members.
- The names that outputs are mapped to, and what a block's buffer looks like after an error has been raised.
- Rounding to single precision: the MXFP4 values are exact, and overflow to infinity is modelled; the Q8_0 quantizer
  is stated over the reals, without NaN and infinities.
- Base64.RequiredEncodeSize: does not model the wrap-around of the machine's size type, because no buffer is that
  long.
- The colours, cursor moves and flushes of the line editor, its Windows branches and `readline_simple`.
- Lazy evaluation, memory maps, element types and file headers of the converters, hyperparameter and name tables,
  and network code.
