# Verified models of BusyBox

This project models five parts of BusyBox and proves what they are for.

- **gzip** (`Bits` to `Deflate`): the whole deflate compressor. `Inflate` is a decoder written from sections 3.1.1 and
  3.2.2 to 3.2.7 of RFC 1951, and every stage of the compressor is proved against it: the bit writer, the heap, the
  Huffman trees with the repair of lengths that are too long, the canonical codes, the run-length coded tree headers,
  the block buffers, the sliding window with its hash chains and the lazy matcher. `Deflate.Zip` puts them together.
- **awk** (`AwkChain`, `AwkExpr`): statements are compiled into a graph of nodes, and walking the graph means what the
  statement means; `parse_expr` builds the one tree that the priorities of the operators allow.
- **fsck** (`FsckScheduler`): `check_all`, which runs the checks of many file systems at once. The history of a run is
  kept as a sequence of events, and what must hold at every point is stated about every prefix of it.
- **dpkg** (`DpkgVersion`, `DpkgTables`, `DpkgDeps`): the order of versions, the hash tables, and the scan that decides
  whether all dependencies are met.
- **ed** (`Ed`): the ring of lines with its cursor, and the substitute command.

Code that changes things in place is modelled by methods on arrays and classes; each method is proved against a function
on sequences or against a relation to the reference decoder. Natural numbers stand for C integers; where a width matters
(the 16-bit buffer of the bit writer, hashes, the counter of alternatives, epochs of versions) it is written out.

Where the code and its specification share a definition, its meaning is stated by laws that do not name it: what makes a
condition true (`AwkChain.IfMeans`), how characters sort in versions (`DpkgVersion.TildeFirst`), which status meets which
dependency (`DpkgDeps.Packages.MetMeans`), when checks may not run together (`FsckScheduler.Scheduler.MayNotJoin`).

Some promises turn out not to be kept by the code. The code is modelled as it is, the exact condition is proved, and a
lemma shows an input:

- gzip: a block is stored if that seems to take no more bytes, but the bits that open it and its padding are not counted
  (`Block.LeastExactly`, `Block.StoredCanBeLonger`).
- awk: an empty group is not a syntax error but makes the parser follow a null pointer (`AwkExpr.EmptyGroup`,
  `AwkExpr.ParseVerdict`), and an operand behind a regular expression ends up below it (`AwkExpr.OperandAfterRegexp`,
  `AwkExpr.PlainExactly`).
- ed: after a line has been inserted before the current one the cursor may be one place behind
  (`Ed.InsertedInStep`), so that a second line typed goes astray (`Ed.SecondLineAstray`). Deletions and substitutions
  from such a cursor can come to other lines (`Ed.FoundExactly`, `Ed.HandledExactly`, `Ed.OtherLineGone`,
  `Ed.OtherLineChanged`), and a deletion can free the header or the current line (`Ed.FaultExactly`, `Ed.HeaderGone`).
  A substitution without the g option starts each line at the offset reached in the line before (`Ed.FirstReplaced`,
  `Ed.LineMissed`).
- dpkg: a dependency line with an empty field, such as a space behind the last comma, makes the program follow a null
  pointer (`DpkgDeps.AddSplitDependencies`, `DpkgDeps.CrashesExactly`).
- fsck: a check that could not be started is still counted as running, so the number of running checks is only bounded
  from above by `max_running` (`FsckScheduler.Scheduler.FsckDevice`). A negative pass number counts as the first pass.

Where comments and code disagree the model follows the code: gzip.c:1239 says that a forced code is 0 or 1, but it may be
2 (which has no extra bits either), and ed.c:329 says that the current line becomes the last one substituted, which is so
only with the p option.

## Model

| member | source | states |
|---|---|---|
| Deflate.Zip | busybox/archival/gzip.c:1706-1809 | For every input and every way reading cuts it into pieces, what is produced inflates to exactly the bytes read, which are all bytes unless reading failed, and the length returned is that of the output |
| Deflate.Deflate | busybox/archival/gzip.c:1706-1809 | All bits sent decode, as one stream with a last block, to the input consumed, and end on a byte boundary |
| Deflate.Step | busybox/archival/gzip.c:1713-1790 | One turn of the lazy matcher keeps this: the finished blocks decode to the input before the current block, and the items tallied since expand to the input up to the string at hand, but for the one byte still to be decided. What the turn does is stated in full: the string at hand is entered and its chain searched, unless the match before is good enough; the match before is saved if the new one is not longer, else the byte before, if there is one to be decided; and all strings passed over are entered |
| Deflate.Refill | busybox/archival/gzip.c:1796-1802 | Filling the window, with or without sliding it, keeps the same, and there is enough lookahead again or the input has ended |
| Matcher.LongestMatch | busybox/archival/gzip.c:588-660 | A match longer than the one before lies in the window at an allowed distance, and all its bytes agree with the string at hand, also those that were never compared. It is the nearest of the longest matches among the first 4096 strings of the chain (1024 after a good match); if none is reported, or one shorter than 258 bytes, no string of the chain agrees on more bytes |
| Matcher.BestOfAll | busybox/archival/gzip.c:588-660 | If the chain has no more strings than are looked at, no earlier string within reach at all agrees with the one at hand on more bytes than the match found |
| Matcher.NoneNear | busybox/archival/gzip.c:1725-1733 | If the chain is empty or begins out of reach, no earlier string within reach agrees on three bytes |
| Hash.ThirdByte | busybox/archival/gzip.c:630-640 | Equal hashes and two equal bytes force the third byte, which the matcher does not compare, to be equal |
| Window.SlidingWindow.FillWindow | busybox/archival/gzip.c:524-572 | Sliding moves every position with its byte and every entry of the chains with its position, so that no chain loses an entry that is still in the window, and keeps the window equal to the stretch of input it stands for |
| Window.SlidingWindow.InsertString | busybox/archival/gzip.c:1696-1704 | The string is entered in its chain, and the entry returned is the latest earlier string with the same hash, or none if there is none |
| Block.Globals2.FlushBlock | busybox/archival/gzip.c:1578-1660 | Whichever of stored, static and dynamic is chosen, the block sent decodes to the data, and the next block starts empty. The dynamic codes are those of Huffman trees for the symbols that occur, with no more code length lengths than needed, and the size of the block is that of the kind which the exact costs in bytes select |
| Block.LeastExactly | busybox/archival/gzip.c:1591-1634 | So a block is never longer than a stored one, and not longer in bytes than with either code exactly unless it is stored although the bits that open it and its padding, which the comparison leaves out, make it longer than the shorter of them, by at most two bytes |
| Block.StoredCanBeLonger | busybox/archival/gzip.c:1613-1615 | Fifteen bytes from 144 on, behind six bits, would take 145 bits with the fixed codes, and if they take no fewer with their own they are sent in 162 |
| Block.Globals2.BuildAll | busybox/archival/gzip.c:1407-1434 | After the trees have been built opt_len and static_len are exactly the bits of the items and the tree header under the dynamic and under the fixed codes |
| Block.Globals2.SendDynamic | busybox/archival/gzip.c:1634-1649 | A dynamic block adds exactly the predicted number of bits and decodes to the items |
| Block.Globals2.CtTally | busybox/archival/gzip.c:1471-1520 | An item is saved and counted under the symbols it will be sent as; the block ends exactly when the buffers are full, or at a multiple of 4096 items if fewer than half of them are matches and they are guessed to take less than half of the bytes |
| Block.Globals2.SendAllTrees | busybox/archival/gzip.c:1442-1464 | The header sent is the one section 3.2.7 of RFC 1951 asks for |
| Header.DynamicBack | busybox/archival/gzip.c:1442-1464 | The reference decoder reads trees and items back from a dynamic block, wherever it stands in a stream |
| BlockBuffer.CompressBlock | busybox/archival/gzip.c:1527-1565 | The saved bytes and flags are sent as the codes of the items, in order, and the end marker |
| TreeBuilding.BuildTree | busybox/archival/gzip.c:1204-1286 | For any frequencies with a total below 65534: a complete canonical code within the limit that covers every used symbol, whose cost is added exactly. The merges are a Huffman tree: its leaves are the symbols in use and each merge takes two of the least frequent nodes. If no length was cut down, which is so whenever no length reaches the limit, the code is cheaper than or equal to any prefix-free code; if some were, the lengths are those that the repair makes of the tree; either way no symbol has a longer code than one that is less frequent. All this is for the frequencies given if at least two symbols are in use; otherwise for these with one added for each code that is forced, and which ones are is stated |
| Optimal.UncutIsBest | busybox/archival/gzip.c:1248-1274 | The lengths that come of always merging two least nodes minimise the sum of frequency times length over all prefix-free codes |
| GenBitlen.GenBitLengths | busybox/archival/gzip.c:1050-1135 | Every leaf gets a length from 1 to the limit with Kraft sum exactly 1, bl_count counts these lengths, and the cost is exact even after repair; there are as many lengths of each kind as the turns of the repair leave of those in the tree |
| Repair.RepairLengths | busybox/archival/gzip.c:1097-1117 | The repair takes exactly half as many turns as there were overflows, each of which moves a leaf of the greatest length below the limit that is in use; it drives no count below zero, keeps the number of leaves and ends with Kraft sum exactly 1 |
| Repair.FromFarDown | busybox/archival/gzip.c:1097-1117 | If b is the least length that has lost leaves, shorter ones keep theirs, all leaves between b and the limit have been moved before the first of length b, and what is between them in the end weighs no more than one leaf of length b |
| GenBitlen.HandOut | busybox/archival/gzip.c:1119-1135 | Handing out lengths along the merge order again gives the leaves exactly the lengths counted, none longer than those handed out before, and corrects the cost |
| Ranking.UncutNeverLonger | busybox/archival/gzip.c:1050-1095 | In a tree that was not cut no symbol has a longer code than one that is less frequent |
| Ranking.HandedNeverLonger | busybox/archival/gzip.c:1119-1135 | Nor has it after lengths have been handed out along the merge order |
| Heap.NodeHeap.PqDownHeap | busybox/archival/gzip.c:1015-1037 | Sifting down restores heap order, keeps the queue as a multiset and leaves the merged nodes in the same array alone |
| Heap.NodeHeap.PqRemove | busybox/archival/gzip.c:1195-1202 | A least node of the queue is taken out and the rest stays a heap |
| Trees.GenCodes | busybox/archival/gzip.c:1146-1179 | Each symbol gets the reversed canonical code of section 3.2.2 of RFC 1951 |
| Canonical.PrefixFree | busybox/archival/gzip.c:1146-1179 | Under lengths that are not over-subscribed no codeword begins another |
| Canonical.ConsecutiveCodes | busybox/archival/gzip.c:1146-1179 | Codes of one length are consecutive in symbol order |
| Canonical.DecodeSymbolFinds | busybox/archival/gzip.c:1146-1179 | A decoder that knows only the lengths reads back the symbol whose codeword comes next |
| CodeLengths.SendTree | busybox/archival/gzip.c:1349-1400 | What is sent is the run-length coding of the lengths under the code length code |
| CodeLengths.ExpandAllRuns | busybox/archival/gzip.c:1349-1400 | Expanding the run-length symbols as in section 3.2.7 of RFC 1951 gives back any sequence of lengths |
| CodeLengths.StretchSent | busybox/archival/gzip.c:1349-1400 | Up to 138 zeros in a row take one symbol, from three on, and up to seven equal lengths two, from four on |
| CodeLengths.ScanTree | busybox/archival/gzip.c:1296-1342 | Each code length symbol is counted as often as it will be sent, and the guard is put behind the last length |
| BitOutput.BitWriter.SendBits | busybox/archival/gzip.c:433-455 | Flushed bytes and held bits together grow by exactly the bits of the value, least significant first, across the 16-bit buffer |
| BitOutput.BitWriter.BiWindup | busybox/archival/gzip.c:477-489 | The last byte is filled with zero bits |
| BitOutput.BitWriter.CopyBlock | busybox/archival/gzip.c:496-515 | A stored block is sent as padding, length, complement and bytes |
| Bits.BiReverse | busybox/archival/gzip.c:461-471 | The code comes out with its bits reversed |
| Bits.ReverseBits | busybox/archival/gzip.c:461-471 | Sending the reversed code least significant bit first sends the code most significant bit first |
| Tables.CodeTables.Init | busybox/archival/gzip.c:1873-1956 | The tables map every length and distance to the code whose base and extra bits section 3.2.5 of RFC 1951 gives for it |
| AwkChain.Compile | busybox/editors/awk.c:1294-1398 | Walking the compiled graph from its first node ends in a state with an ending exactly if the statement means that ending and state |
| AwkChain.IfMeans | busybox/editors/awk.c:858-863 | In that meaning a branch is taken exactly if its condition is a number other than 0 or a text that is not empty |
| AwkChain.WhileMeans | busybox/editors/awk.c:1270-1291 | A loop whose condition is 0 or the empty text ends, otherwise its body is executed and, unless that breaks or ends, the loop again |
| AwkChain.ForMeans | busybox/editors/awk.c:1339-1386 | The same for a loop with a beginning and a step after each turn |
| AwkChain.MissingMeans | busybox/editors/awk.c:1339-1386 | Without a condition a branch is not taken, but a for loop goes on |
| AwkChain.SignalMeans | busybox/editors/awk.c:2223-2267 | An expression in which a function executes next, nextfile or exit ends the chain with that ending |
| AwkChain.BranchLeads | busybox/editors/awk.c:2264-2267 | A branch node leads to one side exactly if the condition is a number other than 0 or a text that is not empty |
| AwkChain.ChainMeans | busybox/editors/awk.c:2223-2267 | The same for any place in a larger graph |
| AwkChain.Chain.ChainGroup | busybox/editors/awk.c:1294-1398 | The nodes appended are the code of the statement, with break and continue restored, and all earlier nodes stay but the open last one |
| AwkChain.Chain.ChainLoop | busybox/editors/awk.c:1270-1291 | The nodes appended are a loop whose break, continue and step lead where they should |
| AwkExpr.ParseIs | busybox/editors/awk.c:1124-1237 | The parser finds a tree exactly if the tree reads as the tokens and its nesting follows the priorities, odd ones to the left and even ones to the right |
| AwkExpr.AboveMeans | busybox/editors/awk.c:207-216 | What "follows the priorities" means: an operator goes above one to its left that binds more tightly, or has the same odd priority |
| AwkExpr.NestingIsUnique | busybox/editors/awk.c:207-216 | Priorities allow at most one tree for a sequence of tokens |
| AwkExpr.ParseVerdict | busybox/editors/awk.c:1137-1235 | Parsing fails exactly on tokens with an unexpected token or an empty group, with the first such error: a syntax error or a null pointer |
| AwkExpr.EmptyGroup | busybox/editors/awk.c:1219-1222 | An empty group makes the parser follow a null pointer |
| AwkExpr.PlainExactly | busybox/editors/awk.c:1171-1179 | Nothing hangs below a regular expression exactly if none is followed by an operand or a prefix operator |
| AwkExpr.OperandAfterRegexp | busybox/editors/awk.c:184-185 | An operand behind a regular expression hangs below it |
| AwkExpr.Parser.ParseExpr | busybox/editors/awk.c:1124-1237 | Climbing the parent pointers in memory builds the nodes of that tree, or fails as stated, and leaves other nodes alone |
| FsckScheduler.Scheduler.CheckAll | busybox/e2fsprogs/fsck.c:737-847 | Over every run: at each point the running checks are on known, different disks without soft raid or there is at most one (unless all are forced), all of one pass, and no more than allowed; passes come in order; the root is checked alone first; without cancellation or a bad root every file system wanted is started exactly once and all have ended; the status is the or of all exit codes; and unless it is cancelled it begins to wait only when no more can be started: one at a time is asked for, as many have been started as are allowed, or each check that could be next would share a disk with a running one or stand beside one on an unknown disk or a soft raid |
| FsckScheduler.Scheduler.MayJoin | busybox/e2fsprogs/fsck.c:608-643 | A check that device_already_active lets through may run beside those that are running |
| FsckScheduler.Scheduler.MayNotJoin | busybox/e2fsprogs/fsck.c:608-643 | A check that device_already_active holds back may not: the running checks would no longer be on known, different disks without soft raid |
| FsckScheduler.Scheduler.StartPass | busybox/e2fsprogs/fsck.c:787-828 | A round starts only checks that are due, and tells rightly whether the pass and the whole are done; if nothing was started something is running; and unless it was cancelled or stopped at the limit, none of the checks that are due and left could join those that are running |
| FsckScheduler.Scheduler.WaitMany | busybox/e2fsprogs/fsck.c:476-489 | Waiting ends at least one check if any is running, or all, starts none, and returns the or of the statuses it saw |
| DpkgVersion.VersionCompare | busybox/archival/dpkg.c:244-296 | The sign of the result is the order by epoch, upstream version and revision, each part by alternating non-digits and numbers, as in section 5.6.12 of the Debian Policy Manual |
| DpkgVersion.VersionComparePart | busybox/archival/dpkg.c:201-242 | Comparing character by character is comparing the keys of the two parts lexicographically |
| DpkgVersion.TildeFirst | busybox/archival/dpkg.c:190-197 | In that order a tilde comes before the end of a part and before anything else |
| DpkgVersion.EndFirst | busybox/archival/dpkg.c:190-197 | The end of a part comes before letters and signs |
| DpkgVersion.LettersFirst | busybox/archival/dpkg.c:190-197 | Letters come before signs, and both are in the order of their codes |
| DpkgVersion.NumbersByValue | busybox/archival/dpkg.c:216-238 | Numbers are in the order of their values, and what follows decides between equal ones |
| DpkgVersion.ReleaseCandidate | busybox/archival/dpkg.c:190-296 | A version with a tilde and anything behind it but a colon or a hyphen comes before the version without |
| DpkgVersion.EpochFirst | busybox/archival/dpkg.c:254-270 | Epochs are compared first, as decimal numbers, and a version without one has epoch 0 |
| DpkgVersion.AtoiMeans | busybox/archival/dpkg.c:254-263 | An epoch is read as a decimal number behind blanks and a sign |
| DpkgVersion.OrderTransitive | busybox/archival/dpkg.c:244-296 | The order of versions is transitive, also in its equality |
| DpkgVersion.OrderOpposite | busybox/archival/dpkg.c:244-296 | Exchanging two versions turns the result around |
| DpkgTables.LookUpAll | busybox/archival/dpkg.c:150-170 | Over any sequence of look-ups for whose new keys, each counted once, there is room: each key is found at the index it got, two keys get the same index exactly if they are equal, and no entry moves |
| DpkgTables.Names.SearchName | busybox/archival/dpkg.c:150-170 | The key is found where it is stored, or else put into a free slot and nowhere else |
| DpkgTables.Names.SearchEndsExactly | busybox/archival/dpkg.c:150-170 | The search ends exactly if there is a free slot or the key is stored |
| DpkgTables.VisitsAll | busybox/archival/dpkg.c:130-148 | A probe sequence visits every slot of the table exactly once |
| DpkgDeps.AddSplitDependencies | busybox/archival/dpkg.c:391-481 | For any line, a null pointer is followed exactly if the line has no field or some field no alternative; otherwise the edges added are those of its clauses: an opening edge that counts the alternatives, if there are several, and one edge for each |
| DpkgDeps.CutMeans | busybox/archival/dpkg.c:407-418 | There is an opening edge exactly if there is a bar in the field |
| DpkgDeps.CrashesExactly | busybox/archival/dpkg.c:402-421 | In characters: these are the lines of commas only and those with a field of spaces and bars behind them |
| DpkgDeps.CrashesAtTrailingSpace | busybox/archival/dpkg.c:402-421 | A space behind the last comma is such a field |
| DpkgDeps.Packages.SearchPackage | busybox/archival/dpkg.c:318-340 | A matching package is found whenever one is stored |
| DpkgDeps.Packages.Look | busybox/archival/dpkg.c:1082-1107 | An edge counts as met exactly if some stored package with the name and an allowed version satisfies it, or some package that provides the name |
| DpkgDeps.Packages.MetMeans | busybox/archival/dpkg.c:932-948 | A dependency is met exactly if some package that has the name and an allowed version, or provides the name, is to be installed; a pre-dependency exactly if one is installed already; other edges never |
| DpkgDeps.Packages.ScanMeans | busybox/archival/dpkg.c:1056-1130 | The scan with its counter passes exactly if each clause of each line has an alternative that is met |
| DpkgDeps.Packages.CheckDependencies | busybox/archival/dpkg.c:1032-1143 | The same for the packages of the table that count |
| Ed.FoundInStep | busybox/editors/ed.c:994-1030 | From any of its three starting points the walk leads to the line asked for |
| Ed.Editor.FindLine | busybox/editors/ed.c:994-1030 | The node returned is the one at the place computed, on the ring, for any state of the cursor |
| Ed.Editor.SetCurNum | busybox/editors/ed.c:1037-1048 | The cursor is set to that node, or stays if there is no such line |
| Ed.Editor.InsertLine | busybox/editors/ed.c:866-907 | The ring stays a ring; lines and cursor become what Inserted says, for any state of the cursor |
| Ed.InsertedInStep | busybox/editors/ed.c:866-907 | The cursor stays in step exactly if the line goes behind it or into the first half of what precedes it |
| Ed.SecondLineAstray | busybox/editors/ed.c:866-907 | Two lines inserted before the first of four do not stay together |
| Ed.TogetherBehind | busybox/editors/ed.c:537-561 | Lines inserted behind the cursor stay together, in order, and the last becomes the current line |
| Ed.FoundExactly | busybox/editors/ed.c:994-1030 | For any cursor on the ring, the walk leads to the line asked for exactly if it starts at either end or the cursor is in step |
| Ed.HandledExactly | busybox/editors/ed.c:908-944 | For any cursor on the ring, the nodes that a deletion or a substitution comes to are those of the range exactly if the walk to its first line leads there |
| Ed.Editor.DeleteLines | busybox/editors/ed.c:908-944 | For any cursor on the ring: the nodes that the walk comes to are gone, all others stay in order, and the cursor stays on its node or leaves the range, behind it if there is a line, else before it, else nowhere; or the header or the node of the cursor is freed, as DeletionOf says; a bad range changes nothing |
| Ed.FaultExactly | busybox/editors/ed.c:908-944 | The header is freed exactly if the deletion comes around to it, the node of the cursor exactly if the cursor is then among the nodes deleted |
| Ed.DeletedInStep | busybox/editors/ed.c:908-944 | From a cursor in step exactly the lines of the range are gone, and the cursor stays in step |
| Ed.DeletedRange | busybox/editors/ed.c:908-944 | If the walk leads to the first line of the range, the header stays and the lines that go are those of the range, whatever the cursor |
| Ed.HeaderGone | busybox/editors/ed.c:908-944 | After a line has been inserted before the last of two, deleting the last two of the three frees the header, and deleting the last one the node of the cursor |
| Ed.OtherLineGone | busybox/editors/ed.c:908-944 | After a line has been inserted before the first of four, deleting the first line takes the second |
| Ed.Editor.Substitute | busybox/editors/ed.c:331-498 | For any cursor on the ring: from the node that the walk comes to, as many texts as the range has lines become what Substituted says, once around the ring, where the header is an empty text; the loop ends whatever the new text contains, ring and cursor stay right when nodes are replaced, and the cursor follows the lines printed |
| Ed.SubstitutedInStep | busybox/editors/ed.c:331-498 | From a cursor in step exactly the lines of the range are replaced, the cursor stays in step, and the last line printed becomes the current one |
| Ed.SubstitutedInPlace | busybox/editors/ed.c:331-498 | The same lines are replaced from any cursor from which the walk leads to the first line of the range |
| Ed.OtherLineChanged | busybox/editors/ed.c:331-498 | After a line has been inserted before the first of four, a substitution in the first line changes the second |
| Ed.AllReplaced | busybox/editors/ed.c:408-490 | With the g option every line of the range has all occurrences replaced, from left to right and none in what was put in |
| Ed.FirstReplaced | busybox/editors/ed.c:408-490 | Without it the first occurrence is replaced exactly if it does not lie before the offset carried over from the line before |
| Ed.LineMissed | busybox/editors/ed.c:408-490 | A line can be passed over |
| Ed.FindString | busybox/editors/ed.c:505-528 | The first occurrence from the offset on is found, and -1 says that there is none |

## Left out

- gzip: the file header, the trailer, the time stamp and the CRC frame the stream and are not modelled, nor is the wrap-around of `compressed_len` and `isize` at 32 bits.
- gzip: `seekable()` is 0, so the first branch of `flush_block` is dead and left out; `DEBUG` checks are the theorems.
- gzip: near the end of the input the matcher reads up to MAX_MATCH bytes behind the window, past the end of its buffer; the model gives the window that much slack with arbitrary contents. Whatever these bytes are, the stream decodes to the input.
- gzip: `depth` is compared and stored as the 8-bit value it is; `heap` and `l_buf` hold numbers in the range the code writes.
- awk: expressions are functions on a state with a signal; values, fields, input and output are not modelled.
- awk: the ternary operator, getline, pipes and output redirection in `parse_expr`, and the tokenizer, whose tokens are the input; subscripts, calls and builtins with their arguments are single operands.
- awk: pattern rules, ranges and functions around the chains.
- awk: nodes are indices of a growing sequence instead of pointers.
- fsck: option parsing, reading the table, matching of types (one flag per file system), `spawn`, signals to children, and the devices given on the command line; `base_device` is any function from device names to disks. `waitpid` is assumed to report every child that ends, so ECHILD is left out.
- dpkg: the status file, archives and scripts; a status of each package is fixed while dependencies are scanned, and conflicts are left out.
- dpkg: `atoi` has no limit, and an illegal operator, which ends the program, is left out; how the text of one alternative becomes a name, an operator and a version is any function of that text.
- dpkg: packages with 65536 edges or more, for which the 16 bits of `num_of_edges` wrap around; for the same reason `DpkgDeps.Packages.ScanMeans` is about clauses with fewer than 65536 alternatives.
- ed: input and output, files, marks, searching for lines and the parsing of commands; running out of memory; `memcpy` on overlapping stretches in the same line is taken to move them.
- ed: after the header or the node of the cursor has been freed nothing is promised.
- The remaining applets would only add easier members.
