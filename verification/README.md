# A Dafny model of wl2k-go

wl2k-go lets radio stations exchange Winlink messages. This project models its three hardest parts in
Dafny and proves what they are for:

* **the LZHUF codec** (`lzhuf/`): an adaptive Huffman tree kept in three parallel tables, a match finder
  that is a forest of binary trees over a ring buffer, a bit packer, a bit reader and a CRC. The result is
  a full round trip through the mutable writer and reader: whatever is written, in whatever pieces, is read
  back, in whatever pieces, and the reader is satisfied when it is closed. It holds for every text whose codes
  the bit packer carries, and this condition is exact: the reader decodes the tokens the writer chose if and
  only if it is met. What the writer chooses to send is determined too: it is stated exactly for which texts
  the match finder's trees stay search trees, and for those every token is a longest match;
* **the B2F session** (`fbb/`, `mailbox/`): two stations taking turns over a link that may be cut anywhere.
  In every run of any number of sessions a message leaves an outbox only after the remote has it, nothing is
  lost and nothing is taken in twice; a session in which nothing fails, mail coming in meanwhile included, ends
  after a bounded number of steps and at most two turns more than twice the number that shipped something, with
  every message delivered, found to be there already, or deferred, but for what came in after its station last
  said that it had nothing more. A station as an object over its mailbox takes exactly the steps of this
  model, and the bytes of a turn are read back to the lines and bodies it stands for;
* **the AGWPE frame demultiplexer** (`transport/ax25/agwpe/demux.go`): a loop that edits the list of clients it
  walks over. In every run no channel is closed twice or written after it was closed, and every client is sent,
  in order and without gaps, the frames it wants for as long as it stays. The loop can always go on unless it
  waits for a client that neither reads nor cancels, and once closed it ends after a bounded number of steps. A
  registration holds the lock until the loop takes it in, and it is stated exactly when closing can happen.

## How it is laid out

Every mutable part is a class or a method with loops whose contract equates its new state with a function
on values; the theorems are about those functions.

| files | subject |
|---|---|
| `Common`, `Sums`, `Bits`, `Text` | optional values, sums, bit strings, decimal and hexadecimal text |
| `HuffmanTree`, `HuffmanRebuild`, `HuffmanCode`, `HuffmanCount`, `HuffmanUnique` | the adaptive tree: the climb of an update, the rebuild, codes and their length, what is counted, that the counts determine the frequencies, and that the leaves determine a rebuilt tree |
| `PositionCode` | the static code of match positions |
| `MatchForest`, `MatchFinder`, `TextRing` | the match finder and the ring buffer |
| `SearchTree`, `SearchForest` | the linked tables as 256 search trees, and the longest match |
| `BitPacker`, `BitStream`, `BitReader` | packing one code and a run of codes into bytes, and reading bits back |
| `Tokens`, `WriterModel`, `WriterCorrect`, `ReaderModel`, `ReaderCorrect`, `LongCodes`, `LongParse` | the writer and the reader on values, why they fit together, and counts and a parse whose codes do not fit the packer |
| `FillOrder`, `FillRun`, `WriterGreedy`, `MissedMatch` | for which texts a writer has search trees and chooses longest matches, and one for which it does not |
| `Crc`, `CrcDivision`, `FileFormat` | the checksum and the file layout |
| `Lzhuf`, `LzhufWriter`, `LzhufReader`, `LzhufRoundTrip` | the classes over arrays, and the round trip |
| `Mailbox`, `DirHandler`, `ProposalOrder` | the mailbox and the order of proposals |
| `Session`, `SessionInv`, `SessionSteps`, `SessionSafety`, `SessionEnd`, `SessionMeasure`, `SessionMail`, `SessionOutcome` | the session as a state machine and its theorems |
| `Station` | a station as an object that calls the mailbox handler |
| `Proposals`, `Framing`, `Turn`, `Delivery` | the lines and frames a session sends, a whole turn of them, and one message end to end |
| `Demux` | the demultiplexer |

Some points of the modelling:

* The writer registers positions before the lookahead is filled and deletes a position after its first byte has
  been overwritten. In every run the structure of the match finder's forest is invariant, each position keeps the
  byte it carried when it was registered, and a match found is a real one. That the trees are search trees is not:
  bytes that come in later can turn the order of two positions that are registered already.
  `FillOrder.Orderly` says of a text when that does not happen. It can be checked on the first 59 bytes, and it is
  exact. For an orderly text the match found is a longest one; `MissedMatch` has a text that is not orderly and a
  match that is missed.
* The sixty blank positions before the text are registered backwards, so that one of them may stand for another that
  leaves the window later. The longest match is claimed among them only as long as none has left the window.
* The writer and the reader start at different places of their rings. The argument is about distances back in a
  history of 60 spaces followed by the text.
* `putCode` works on a window of 16 bits, `encodeEnd` writes one byte, and the count of pending bits is kept in
  eight bits. What goes out for a code is stated for every state of the packer: with at most 16 bits pending the
  code with the bits beyond its sixteenth cleared, with more pending zeros. `LzhufRoundTrip.CodesCarried` says of
  a text that every code goes out as it is, that the count never overflows and that at most eight bits are
  pending at the end. It is the one condition on the content of the text in the round trip. `TokensReadBack` says
  that it is met if and only if the reader decodes the writer's tokens from the bytes of the payload;
  `ShortTextsCarried` discharges it for every text of up to 3867 bytes; `CodeLengths` bounds every code by 21
  bits; and `LongParse.LongCodesOccur` gives a text and a parse of it whose codes are not carried, by reaching
  counts with which, as `LongCodes.LongCodeOf` says, every tree has such a code.
* The size field and the reader's position are 32-bit counters. `LzhufRoundTrip.SizeReached` says of a text that
  the position reaches the size field at its end and at no token before. It holds for every text below 2^31
  bytes, and `PayloadDecodes` says that a text whose codes are carried is delivered if and only if it holds.
* The error line a failing station sends, the message bodies and the protocol lines are the atoms of the session
  model. A station may fail at any step, which covers a link that is cut: what was under way and not yet read is
  then never read. `Turn` shows that the bytes of a turn carry what the atoms stand for.
* New mail may be put into an outbox at any step. A message counts as late if it was put in after its station
  last sent `FF` or `FQ`; a message is a file, so that a MID used again is another message.
* A session's turn is counted when its outcome is decided: an answer with an acceptance is read, or `FF` or `FQ`
  is sent.
* The position tables are given by ranges. `|` is a recursive function on numbers; 8-, 16-, 32- and 64-bit
  truncation is written out where the program depends on it.

## Model

| member | source | states |
|---|---|---|
| HuffmanTree.LastBelowStops | lzhuf/lzhuf.go:236-239 | the search for an exchange partner stops below the root, at a node of the old frequency that is not an ancestor |
| HuffmanTree.CountKeeps | lzhuf/lzhuf.go:227-234 | counting a node whose order is undisturbed moves the deficit to its parent, or completes the invariant at the root |
| HuffmanTree.ExchangeKeeps | lzhuf/lzhuf.go:236-261 | exchanging the counted node with its partner keeps all links, order and sums, and moves the deficit strictly upward |
| HuffmanTree.ClimbStepKeeps | lzhuf/lzhuf.go:226-262 | a round of the climb ends at the root with the invariant and one more count, or goes on at a higher node |
| HuffmanTree.ClimbStepMoves | lzhuf/lzhuf.go:226-262 | a round counts the last position of the old frequency, exchanges the subtree that is counted with the one there, moves no other, and goes on at the parent of that position |
| HuffmanTree.Climb | lzhuf/lzhuf.go:224-262 | the climb terminates with the whole tree invariant and the root one higher |
| HuffmanCount.UpdateCounts | lzhuf/lzhuf.go:219-263 | an update adds one to the count of the symbol coded and to no other, after halving all counts if the root was full |
| HuffmanCount.RebuildHalves | lzhuf/lzhuf.go:178-217 | a rebuild leaves every symbol with half its count, rounded up |
| HuffmanCount.FreshCounts | lzhuf/lzhuf.go:57-72 | at the start every symbol counts once |
| HuffmanUnique.FreqUnique | lzhuf/lzhuf.go:219-263 | two trees that meet the invariant and count the same have the same frequency table, however they came about |
| HuffmanUnique.BuiltUnique | lzhuf/lzhuf.go:178-217 | two trees that meet the invariant and are built in order, from the same leaves in the same order with the same counts, are the same in every table |
| HuffmanUnique.RebuiltBuilt | lzhuf/lzhuf.go:54-217 | rebuilt trees and the initial tree are built in order, so that their leaves determine them |
| HuffmanRebuild.AddPairKeeps | lzhuf/lzhuf.go:189-205 | joining the next pair and inserting the node keeps the order, the pairing, the leaves and the weight still to be joined |
| HuffmanRebuild.AddPairTies | lzhuf/lzhuf.go:188-205 | the joined node goes behind every node of its frequency: leaves come first among equals, and joined nodes follow in the order of their pairs |
| HuffmanRebuild.BuildKeeps | lzhuf/lzhuf.go:188-205 | joining to the end leaves one root over the same leaves |
| HuffmanRebuild.ConnectInverts | lzhuf/lzhuf.go:207-216 | the parent table written last is the inverse of the child table |
| HuffmanRebuild.RebuildKeeps | lzhuf/lzhuf.go:178-217 | a rebuild meets the whole invariant, keeps the leaves in order with halved frequencies, and at least nearly halves the root |
| HuffmanRebuild.RebuildTies | lzhuf/lzhuf.go:178-217 | among nodes of equal frequency a rebuilt tree has the leaves first and the joined nodes in the order of their pairs |
| HuffmanRebuild.FreshTies | lzhuf/lzhuf.go:57-72 | so has the initial tree, whose leaves are the symbols in their order |
| HuffmanRebuild.RebuildsAreRare | lzhuf/lzhuf.go:219-222 | after a rebuild the next 16227 updates need no other |
| HuffmanRebuild.Update | lzhuf/lzhuf.go:219-263 | an update keeps the invariant, root at most 0x8000, and says what the root becomes |
| HuffmanRebuild.FreshTreeOk | lzhuf/lzhuf.go:54-75 | the initial tree meets the invariant with root frequency 314 |
| HuffmanCode.DecodeCode | lzhuf/reader.go:155-168 | on the code of a symbol the walk down the tree returns that symbol and consumes exactly those bits |
| HuffmanCode.DecodeReadsCode | lzhuf/reader.go:155-168 | whatever symbol the walk returns within the stream, the bits it consumed are the code of that symbol |
| HuffmanCode.DecodeIff | lzhuf/reader.go:155-168 | a symbol is read within the stream if and only if its code comes next |
| HuffmanCode.ChildPaths | lzhuf/writer.go:172-191 | below an inner node the code goes on with 0 to the first child in the table and with 1 to the second |
| HuffmanCode.CodeLengthBound | lzhuf/writer.go:172-191 | a code of length d forces the root frequency to at least Fibonacci d + 2 |
| HuffmanCode.CodeLengths | lzhuf/lzhuf.go:18-18 | no code exceeds 21 bits, and none exceeds 16 while the root is below 4181 |
| PositionCode.TableInverse | lzhuf/lzhuf.go:271-361 | the decoding tables invert the encoding tables on every byte a code can start with |
| PositionCode.PrefixCanonical | lzhuf/lzhuf.go:271-361 | the prefix code is the canonical one: the first word is all zeros, lengths do not fall, and each word is the one before, plus one in its last place |
| PositionCode.PrefixLengths | lzhuf/lzhuf.go:271-361 | 1, 3, 8, 12, 24 and 16 of its words have 3, 4, 5, 6, 7 and 8 bits |
| PositionCode.PositionsCanonical | lzhuf/writer.go:193-202 | prefix and low six bits together are a canonical code of all 4096 positions, complete on 14 bits |
| PositionCode.DecodePositionCode | lzhuf/reader.go:170-183 | reading the bits written for a position returns the position and consumes exactly those bits |
| PositionCode.DecodePositionReads | lzhuf/reader.go:170-183 | whatever position is read within the stream, the bits consumed are its code |
| MatchForest.AttachKeeps | lzhuf/lzhuf.go:126-141 | hanging a new position under a free link keeps the forest well formed, under the root of its byte |
| MatchForest.ReplaceKeeps | lzhuf/lzhuf.go:165-175 | putting a new position in place of an equal one keeps the forest and exchanges the two registrations |
| MatchForest.RightmostEnds | lzhuf/lzhuf.go:91-94 | the chain of right children ends, at a node of the same tree without a right child |
| MatchForest.SpliceKeeps | lzhuf/lzhuf.go:104-111 | taking out a node with one child keeps the forest |
| MatchForest.DeleteKeeps | lzhuf/lzhuf.go:78-112 | deletion keeps the forest well formed and unregisters that position and no other |
| MatchForest.DeleteMoves | lzhuf/lzhuf.go:78-112 | a node with two children is replaced by the last node of its left subtree, taken out of its place first |
| MatchForest.FreshForestOk | lzhuf/lzhuf.go:44-51 | the initial forest is well formed and empty |
| MatchFinder.DescendSound | lzhuf/lzhuf.go:125-164 | the descent ends within as many steps as there are positions, at a free link or an equal node of the right tree, with a real match; DescendBest says which |
| MatchFinder.DescendBest | lzhuf/lzhuf.go:125-164 | the descent compares with the nodes of a path, each hanging on the side that the order of the texts tells, down to a free link or an equal text; the result is the longest agreement above two bytes among them, at the nearest node that has it |
| MatchFinder.InsertKeeps | lzhuf/lzhuf.go:115-176 | insertion keeps the forest, registers the position under its byte, adds no other, and reports a match that is one |
| MatchFinder.InsertFinds | lzhuf/lzhuf.go:115-176 | insertion reports that agreement from the root of its byte, length 0 exactly if none on the path exceeds two bytes, and puts the position where the path ends |
| MatchFinder.InsertRegisters | lzhuf/lzhuf.go:149-163 | the reported length is at most 60 and the distance within the ring |
| SearchTree.AddInorder | lzhuf/lzhuf.go:125-175 | read from left to right, a tree has one position more after an insertion, or one position replaced by one with the same text |
| SearchTree.AddSearches | lzhuf/lzhuf.go:125-175 | in a tree whose texts ascend from left to right they do so after an insertion |
| SearchTree.PathCovers | lzhuf/lzhuf.go:125-164 | in such a tree no node agrees further with the position sought than some node on its path |
| SearchForest.InsertTrees | lzhuf/lzhuf.go:115-176 | insertion into the linked tables adds the position to the tree of its byte as a search tree would, and leaves the other trees alone |
| SearchForest.InsertKeepsOrder | lzhuf/lzhuf.go:115-176 | insertion keeps all 256 trees search trees |
| SearchForest.InsertLongest | lzhuf/lzhuf.go:115-176 | with search trees, no registered position of the byte agrees further than the match reported |
| SearchForest.DeleteTrees | lzhuf/lzhuf.go:78-112 | deletion from the linked tables takes the position out of the order from left to right and changes nothing else in it |
| SearchForest.DeleteKeepsOrder | lzhuf/lzhuf.go:78-112 | deletion keeps all 256 trees search trees |
| TextRing.RingRead | lzhuf/writer.go:123-131 | reading ahead of a slot through the mirrored tail gives the text bytes it stands for |
| TextRing.RingWrite | lzhuf/writer.go:124-131 | writing a byte and its mirror image extends the text the ring holds |
| BitPacker.PutSends | lzhuf/writer.go:205-228 | in any state short of an overflow of the count, what is appended is the code with the bits beyond its sixteenth cleared, or zeros if more than 16 bits were pending |
| BitPacker.PutEndCuts | lzhuf/writer.go:165-170 | the end pads up to eight pending bits with zeros to a byte and loses all beyond eight |
| BitStream.BytesBegin | lzhuf/writer.go:165-228 | the bytes written for any run of codes begin with all their bits if and only if every code is carried, the count never overflows and at most eight bits are pending at the end; then fewer than eight zeros follow |
| BitStream.ShortCodesIntact | lzhuf/writer.go:205-228 | codes of at most 16 bits are always carried, and fewer than eight bits stay pending |
| LongCodes.LongTreeOk | lzhuf/lzhuf.go:24-33 | a concrete skewed tree meets the whole tree invariant, well below the frequency of a rebuild |
| LongCodes.LongCodeOf | lzhuf/writer.go:172-228 | in every tree that counts what this one does, some symbol has a code of 17 bits whose last bit is set, which no state of the packer carries |
| LongParse.Reached | lzhuf/lzhuf.go:219-263 | 13882 copies, counted one after the other from the initial tree, lead to such a tree |
| LongParse.LongCodesOccur | lzhuf/writer.go:165-228 | there is a text and a parse of it into literals and copies that is not carried, and whose tokens are not read back from the bytes written for them |
| Tokens.CopySound | lzhuf/reader.go:131-143 | copying byte by byte from a sound distance, overlapping or not, yields the next bytes of the text |
| Tokens.CoversExpands | lzhuf/writer.go:145-163 | tokens that cover a text expand to it |
| Tokens.SymbolOrder | lzhuf/writer.go:155-159 | the symbols are the byte values followed by the copy lengths from three on |
| Tokens.BlankStart | lzhuf/reader.go:59-61 | a copy at the very start is of spaces |
| WriterModel.AdvanceKeeps | lzhuf/writer.go:123-143 | advancing keeps the writer's state well formed and all indices in bounds |
| WriterModel.WriteByteKeeps | lzhuf/writer.go:65-80 | so does writing a byte, before and after the lookahead is filled |
| WriterModel.WriteAllConcat | lzhuf/writer.go:60-83 | writing in two calls is writing the concatenation |
| WriterCorrect.MatchSound | lzhuf/writer.go:145-163 | whenever a match is used, clipped to the lookahead, the text repeats itself at that distance, stale node and mirror included |
| WriterCorrect.EncodeTracks | lzhuf/writer.go:145-163 | a token is emitted that covers the text from where the last one ended |
| WriterCorrect.AdvanceTracks | lzhuf/writer.go:123-143 | ring, forest, tree and bit stream stay in step with the text through an advance |
| WriterCorrect.FillTracks | lzhuf/writer.go:65-74 | and through the filling of the lookahead |
| WriterCorrect.WriterEmits | lzhuf/writer.go:60-121 | for every text the tokens emitted cover it, and the payload is what the packer makes of their codes |
| FillRun.OrderedIff | lzhuf/writer.go:65-74 | filling the lookahead leaves search trees if and only if no byte above the space follows two to 58 spaces at the very start |
| WriterGreedy.OrderedThroughout | lzhuf/writer.go:60-143 | a writer has search trees throughout if and only if its text does not start that way |
| WriterGreedy.EncodeChoice | lzhuf/writer.go:145-163 | the token put is the match found, cut to the lookahead, if that exceeds two bytes, and the next byte otherwise |
| WriterGreedy.WriterChooses | lzhuf/writer.go:60-163 | for every such text each token is a longest match: no copy from the last 1988 bytes, nor, up to position 1928, from the blanks before the text (sixty, or as many as it has bytes), reproduces more of the next sixty bytes, and a byte goes out as it is only if none reproduces three |
| MissedMatch.MatchMissed | lzhuf/writer.go:65-74 | for two spaces, a letter, four spaces and the letter this fails: the tree is out of order, and the writer misses a match of five bytes |
| ReaderCorrect.CopyRingSound | lzhuf/reader.go:131-143 | copying in the reader's ring appends the copied bytes to the text it holds |
| ReaderCorrect.StepToken | lzhuf/reader.go:121-143 | on the bits of a token the reader outputs what it stands for and its tree becomes the writer's |
| ReaderCorrect.ReaderDelivers | lzhuf/reader.go:103-147 | on the bits of tokens covering a text the reader outputs the text of the tokens up to the first at which its 32-bit position reaches the size, and stops right behind them |
| ReaderCorrect.FollowIff | lzhuf/reader.go:103-183 | the reader decodes exactly the given tokens from a stream if and only if it begins with their bits, and then stops right behind them |
| Crc.TablePairs | lzhuf/crc.go:47-80 | every table entry follows from the one of half its index by shifting and reducing |
| Crc.RunningConcat | lzhuf/crc.go:17-22 | the running checksum does not depend on how the bytes are split |
| Crc.CrcWriter.Write | lzhuf/crc.go:17-22 | writing runs the checksum over the bytes |
| Crc.CrcWriter.Sum | lzhuf/crc.go:24-30 | the sum is that of the bytes followed by two zero bytes |
| Crc.ComputeCrc | lzhuf/crc.go:32-38 | the checksum of a byte string is the running sum over it and two zero bytes |
| CrcDivision.UpdateDivides | lzhuf/crc.go:11-13 | one table step is eight steps of binary long division by x^16 + x^12 + x^5 + 1 |
| CrcDivision.ChecksumIsRemainder | lzhuf/crc.go:32-38 | the checksum is the remainder of the bits with sixteen zeros appended |
| CrcDivision.SingleByteDetected | lzhuf/crc.go:32-38 | changing exactly one byte changes the checksum |
| FileFormat.LE16RoundTrip | lzhuf/writer.go:102-108 | the checksum field reads back |
| FileFormat.LE32RoundTrip | lzhuf/writer.go:99-113 | the size field reads back, negative sizes included |
| FileFormat.ByteOrder | lzhuf/writer.go:99-113 | the size field has the low byte first and ends in ones for sizes below 0 |
| FileFormat.FromLE32RoundTrip | lzhuf/reader.go:62-75 | any four bytes are the size field of the size they read as |
| FileFormat.LE16Order | lzhuf/writer.go:102-108 | the checksum field has the low byte first |
| Lzhuf.Tables.constructor | lzhuf/lzhuf.go:54-75 | allocates zeroed tables of the right sizes holding the initial tree |
| Lzhuf.Tables.ClimbRound | lzhuf/lzhuf.go:226-262 | in place, one round of the climb |
| Lzhuf.Tables.Swap | lzhuf/lzhuf.go:241-257 | in place, the exchange of two subtrees |
| Lzhuf.Tables.Update | lzhuf/lzhuf.go:219-263 | in place, the tree after an update |
| Lzhuf.Tables.CollectLeaves | lzhuf/lzhuf.go:179-186 | in place, the leaves packed to the front in order with halved frequencies |
| Lzhuf.Tables.JoinPairs | lzhuf/lzhuf.go:188-205 | in place, the tables after all pairs are joined |
| Lzhuf.Tables.ConnectParents | lzhuf/lzhuf.go:207-216 | in place, the parent table |
| Lzhuf.Tables.Reconst | lzhuf/lzhuf.go:178-217 | in place, the rebuilt tree |
| Lzhuf.Tables.BuildFresh | lzhuf/lzhuf.go:57-72 | in place, the initial tree, equal to the one a rebuild of equal leaves gives |
| Lzhuf.Tables.InitTree | lzhuf/lzhuf.go:44-51 | clears the roots and the registrations and nothing else |
| Lzhuf.Tables.DeleteNode | lzhuf/lzhuf.go:78-112 | in place, the forest after deletion |
| Lzhuf.Tables.Compare | lzhuf/lzhuf.go:143-148 | the first of the next 59 bytes at which two positions differ, and how |
| Lzhuf.Tables.Search | lzhuf/lzhuf.go:125-164 | the place for a position and the match found on the way |
| Lzhuf.Tables.InsertNode | lzhuf/lzhuf.go:115-176 | in place, the forest after insertion, with match length and position |
| LzhufWriter.Writer.constructor | lzhuf/writer.go:44-56 | a writer before its first byte |
| LzhufWriter.Writer.PutCode | lzhuf/writer.go:205-228 | in place, the packer after a code |
| LzhufWriter.Writer.CodeOf | lzhuf/writer.go:172-188 | the climb from a leaf collects its code, left-aligned, and its length |
| LzhufWriter.Writer.EncodeChar | lzhuf/writer.go:172-191 | in place, a symbol emitted and counted |
| LzhufWriter.Writer.EncodePosition | lzhuf/writer.go:193-202 | in place, a position emitted |
| LzhufWriter.Writer.Encode | lzhuf/writer.go:145-163 | in place, a token emitted for the front of the lookahead |
| LzhufWriter.Writer.Advance | lzhuf/writer.go:123-143 | in place, one byte of the lookahead processed |
| LzhufWriter.Writer.Write | lzhuf/writer.go:60-83 | in place, the writer after all bytes of the slice, all of them accepted |
| LzhufWriter.Writer.Close | lzhuf/writer.go:87-121 | the file: checksum if asked for, size, and the payload with the lookahead drained |
| BitReader.ByteSource.ReadByte | lzhuf/reader.go:70-72 | bytes come in order, and the checksum has run over exactly those fetched ahead |
| BitReader.Reader.ReadBits64 | lzhuf/bit_reader.go:36-68 | up to 56 bits are the next bits of the stream, whatever was read before; of up to 64, as many of the first are lost as more than 64 had to be at hand; 0 and an error if there are too few |
| LzhufReader.Reader.constructor | lzhuf/reader.go:56-61 | a reader before its first bit |
| LzhufReader.Reader.DecodeChar | lzhuf/reader.go:155-168 | in place, a symbol decoded and counted |
| LzhufReader.Reader.DecodePosition | lzhuf/reader.go:170-183 | a position decoded |
| LzhufReader.Reader.CopyOut | lzhuf/reader.go:131-143 | a match copied, what does not fit the caller's buffer being kept |
| LzhufReader.Reader.DecodeStep | lzhuf/reader.go:121-143 | one round of reading on the arrays |
| LzhufReader.Reader.Read | lzhuf/reader.go:103-147 | whatever the buffer size, the next bytes of the output of the whole run, end of file exactly at the announced size |
| LzhufReader.Reader.Close | lzhuf/reader.go:85-98 | satisfied if and only if nothing failed, the size is right and the checksum, if there is one, agrees |
| LzhufReader.NewReader | lzhuf/reader.go:56-75 | the header is split off; a file too short for it is an error |
| LzhufRoundTrip.ShortTextsCarried | lzhuf/lzhuf.go:18-18 | the codes of texts of up to 3867 bytes are always carried |
| LzhufRoundTrip.PayloadBegins | lzhuf/writer.go:60-228 | the payload begins with the bits of the tokens if and only if their codes are carried, and then ends with fewer than eight zeros |
| LzhufRoundTrip.TokensReadBack | lzhuf/reader.go:103-183 | for every text, what the reader decodes from the payload is the tokens the writer chose if and only if their codes are carried |
| LzhufRoundTrip.PayloadDecodes | lzhuf/reader.go:103-147 | if the codes are carried, reading the payload of a text of any size gives a prefix of it without an error, the text itself if and only if the size field is reached at its end and not before, and then stops in the last byte |
| LzhufRoundTrip.SmallSizesReached | lzhuf/reader.go:103-147 | for texts below 2^31 bytes the size is reached at the end and not before |
| LzhufRoundTrip.OversizeNotDelivered | lzhuf/writer.go:60-83 | from 2^31 bytes on, whether the codes are carried or not, the reader hands out less than the text, unless the size field wraps to within 60 of 2^31 |
| LzhufRoundTrip.Compress | lzhuf/writer.go:44-121 | the file depends on the concatenation of the writes only |
| LzhufRoundTrip.Decompress | lzhuf/reader.go:56-153 | reading the file of a text with any buffer sizes, empty ones included, gives the text, and Close is satisfied |
| LzhufRoundTrip.RoundTrip | lzhuf/writer.go:44-121 | any text whose codes are carried, written in any pieces and read in any pieces, comes back and is found intact |
| Delivery.Deliver | fbb/proposal.go:58-142 | a message compressed, framed, read and decompressed is the message, and nothing behind it is consumed |
| Mailbox.Outbound | mailbox/syncdir.go:134-170 | the messages proposed are exactly those fit for the remote and not deferred |
| Mailbox.OffersShrink | mailbox/syncdir.go:121-132 | reporting a message sent or deferred takes it, and only it, off the offers |
| DirHandler.Delivers | mailbox/syncdir.go:146-160 | the search among the remote's addresses decides whether a message is for it |
| DirHandler.Handler.constructor | mailbox/syncdir.go:40-45 | wraps the directories there are, nothing being deferred |
| DirHandler.Handler.Prepare | mailbox/syncdir.go:47-50 | forgets what was deferred and nothing else |
| DirHandler.Handler.ProcessMessage | mailbox/syncdir.go:83-100 | adds to the inbox |
| DirHandler.Handler.MarkSent | mailbox/syncdir.go:121-128 | moves a message from the outbox to the sent directory, or fails if it is not there |
| DirHandler.Handler.MarkDeferred | mailbox/syncdir.go:130-132 | notes a deferral |
| DirHandler.Handler.GetOutbound | mailbox/syncdir.go:134-170 | the loop over the directory returns the messages to propose, in order |
| ProposalOrder.TwoSortsByKey | fbb/wl2k.go:390-413 | sorting by size and then stably by precedence orders by precedence, size and MID, and is a permutation |
| ProposalOrder.SortProposals | fbb/wl2k.go:390-413 | however the two sorts work, there is only one order they can arrive at |
| ProposalOrder.ArrangeSorts | fbb/wl2k.go:390-413 | and it is the sorted one |
| ProposalOrder.PrecedenceMeans | fbb/proposal.go:201-222 | the most urgent tag that occurs anywhere in the title decides the precedence |
| ProposalOrder.OfferOrder | fbb/wl2k.go:390-413 | mail is offered by precedence, then smaller messages first, then in dictionary order of the MIDs |
| ProposalOrder.BlockIsFirst | fbb/b2f.go:125-128 | no proposal left out of a block of five comes before one inside it |
| SessionInv.NextBlockFacts | fbb/b2f.go:125-128 | a block names different messages, all on offer, and is empty only if nothing is |
| SessionSteps.AnswersAccept | fbb/b2f.go:304-332 | at most one proposal of a MID is accepted, and only if the MID is new |
| SessionSteps.OutMoves | fbb/b2f.go:55-193 | a step of the station that has the turn keeps the two in step, and what it marks sent has arrived |
| SessionSteps.InMoves | fbb/b2f.go:195-297 | a step of the other station keeps the two in step; the turn passes exactly when it gets to choose |
| SessionSteps.PromptPhase | fbb/b2f.go:239-265 | at the prompt the block read is the block sent, and the answers go back |
| SessionSteps.FetchPhase | fbb/b2f.go:275-294 | what is fetched next is what was accepted next, and nothing else is on the way |
| SessionSteps.TurnPasses | fbb/wl2k.go:273-284 | when all is fetched the roles are swapped, even if the sender has not noticed |
| SessionSteps.FailPhase | fbb/wl2k.go:227-246 | a station that gives up, telling the remote or not, upsets nothing |
| SessionSafety.StartOk | fbb/wl2k.go:147-164 | two stations that have never met meet the invariant of the session |
| SessionSafety.StepKeeps | fbb/b2f.go:55-297 | every event of every run, failures, reconnections and new mail included, keeps the invariant |
| SessionSafety.DeliveredBeforeMarked | fbb/b2f.go:66-117 | in every run a message leaves an outbox only if the remote has it, none is lost, and none is taken in twice |
| SessionEnd.OutFlow | fbb/b2f.go:79-91 | the flags of the turn loop and the count of turns after a step of the station that has the turn |
| SessionEnd.InFlow | fbb/b2f.go:232-277 | the same after a step of the other station |
| SessionMeasure.CalmStep | fbb/wl2k.go:273-284 | without failures every step brings the session nearer to its end, and keeps that nothing is on offer but late mail where the turn loop relies on it |
| SessionMail.CalmAdd | mailbox/syncdir.go:134-170 | new mail keeps the session in step and sets it back by a bounded amount |
| SessionMail.CalmRun | fbb/wl2k.go:273-289 | a run without failures has no more steps than its start and the new mail allow |
| SessionOutcome.NoDeadlock | fbb/wl2k.go:273-289 | without failures one of the two can move until both have stopped |
| SessionOutcome.SessionsEnd | fbb/wl2k.go:273-289 | without failures a session, with any new mail meanwhile, takes a number of steps bounded by the mail and at most 2P + 2 turns, P of which ship something; it stops only when both stopped on the same quit command and every message for the remote, there from the start or new, is delivered, was there already, or is put off, unless it came in after its station last said it had nothing more |
| Station.Station.constructor | fbb/wl2k.go:248-273 | a station at the start of a session is the one the session model connects, its handler prepared |
| Station.Station.Proposed | fbb/b2f.go:121-128 | the block proposed from the handler is the one of the session model |
| Station.Station.AnswerAll | fbb/b2f.go:304-332 | asking the handler about each proposal gives the answers of the session model |
| Station.Station.Report | mailbox/syncdir.go:121-128 | reporting a message sent moves it in the handler as in the session model, or ends the program |
| Station.Station.Step | fbb/b2f.go:55-297 | for every state of the object and its mailbox, a step does what the session model says, or stays put exactly where the model is blocked |
| Proposals.ParseLine | fbb/proposal.go:144-199 | a proposal line is parsed to the proposal it was made from |
| Proposals.SendBlock | fbb/b2f.go:130-149 | the loops write the block with its checksum |
| Proposals.ReceiveBlock | fbb/b2f.go:200-269 | the loop over lines reads a block, or finds the turn over, or fails |
| Proposals.BlockReadsBack | fbb/b2f.go:218-246 | every block passes the checksum and is read to the same proposals in order, up to its prompt |
| Proposals.TotalIsCharSum | fbb/b2f.go:130-149 | the checksum runs over every character sent, line ends included |
| Proposals.BlockChecked | fbb/b2f.go:239-246 | a block is taken if and only if the two digits of its prompt bring that sum to 0, and is refused otherwise |
| Text.Hex2Is | fbb/b2f.go:149-149 | the prompt carries two upper-case hexadecimal digits, the high one first |
| Proposals.AnswerBlock | fbb/b2f.go:304-332 | the loop with its set of MIDs seen gives the answers, counts the acceptances and writes the answer line |
| Proposals.AcceptedOnce | fbb/b2f.go:304-332 | of proposals for one MID at most one is accepted, and none the station has |
| Proposals.ParseAnswer | fbb/b2f.go:335-388 | the loop over the answer line gives the answers, with offsets where there are any |
| Proposals.SynonymsRead | fbb/b2f.go:349-363 | `Y`, `y` and `+` accept, `N`, `n`, `R`, `r` and `-` reject, `L`, `l`, `H`, `h` and `=` defer, one proposal each, whatever follows them |
| Proposals.UnknownRefused | fbb/b2f.go:383-385 | a line with any other letter where an answer is due is refused |
| Proposals.OffsetReads | fbb/b2f.go:364-382 | `A`, `a` or `!` and a number, if no digit follows, accept with that offset, or with 0 beyond 999999 |
| Proposals.OffsetMissing | fbb/b2f.go:364-368 | a request for an offset without any digit behind it is refused |
| Proposals.OffsetLineReads | fbb/b2f.go:335-388 | a line with one such request among its letters is read answer by answer if and only if there are no more answers than proposals |
| Proposals.OffsetsRunTogether | fbb/b2f.go:364-382 | with a second request on the line all up to its number is taken for one, and the offset is lost |
| Proposals.SampleLines | fbb/b2f_test.go:10-32 | the two lines of `TestParseProposalAnswer` give the answers and offsets it lists |
| Proposals.AnswerLineReads | fbb/b2f.go:151-168 | on the wire an answer line is read to the same answers, and nothing behind it |
| Proposals.AwaitAnswer | fbb/b2f.go:151-168 | the loop skips comments and takes the first other line as the answer, or refuses it |
| Proposals.AnswersReadBack | fbb/b2f.go:151-388 | the answer line as sent is read, up to its end, to the answers position by position if and only if there is one and there are no more than proposals; otherwise it is refused |
| Proposals.SessionAnswers | fbb/b2f.go:304-332 | the answers on the wire are those of the session model |
| Framing.WriteCompressed | fbb/b2f.go:390-501 | the loops write header, blocks of at most 125 bytes and checksum; data under six bytes is refused after the header |
| Framing.ReadCompressed | fbb/b2f.go:503-633 | the loops read one message from the stream, or say what was wrong with it |
| Framing.HeaderReads | fbb/b2f.go:523-560 | the header is read back if and only if its length fits the length byte |
| Framing.BlocksRead | fbb/b2f.go:593-617 | however the data is cut into blocks of 1 to 256 bytes, the reader puts it together again |
| Framing.BlocksDecide | fbb/b2f.go:593-633 | and accepts it if and only if the byte after the end mark brings the sum to 0 and the size is the one announced; which of the two fails is reported |
| Framing.ChangedAt | fbb/b2f.go:464-483 | data byte k goes out at place k + 2 (k / 125 + 1) among the blocks, and nothing else depends on it |
| Framing.ChangedByteRefused | fbb/b2f.go:464-633 | a frame with exactly one data byte changed is refused for its checksum |
| Framing.HeaderAccepted | fbb/b2f.go:523-560 | whatever header is accepted starts with 1 and its length, and holds a title and the offset expected |
| Framing.FrameAccepted | fbb/b2f.go:503-633 | whatever is accepted as a message is such a header, blocks of 1 to 256 bytes holding exactly the data returned, of the size announced, and a byte that brings their sum to 0 |
| Framing.FrameReads | fbb/b2f.go:390-633 | a frame is read back, consuming exactly its bytes, if and only if its header fits and its length is the one announced |
| Framing.BatchReads | fbb/b2f.go:275-294 | frames sent one after the other are read back one after the other |
| Turn.TurnReadsBack | fbb/b2f.go:119-297 | the bytes of a whole turn, block and prompt and then the accepted messages, are read back to the proposals and the data in order, and nothing behind them is consumed |
| Turn.TurnAtoms | fbb/b2f.go:195-297 | these are the lines the session model sends and the bodies it expects |
| Turn.EmptyTurnReads | fbb/b2f.go:232-237 | the two lines that end an empty turn are read as what they are, up to their end |
| Demux.Want | transport/ax25/agwpe/demux.go:31-49 | a frame is wanted if port, stations and kind all fit, each only if asked for |
| Demux.WantedOne | transport/ax25/agwpe/demux.go:31-49 | so a client is sent a frame exactly if it meets every criterion the filter names |
| Demux.WantedConcat | transport/ax25/agwpe/demux.go:148-183 | the frames wanted of a run are those of its parts, in order |
| Demux.StepKeeps | transport/ax25/agwpe/demux.go:97-183 | every event keeps the invariant of the demultiplexer |
| Demux.TakenInOrder | transport/ax25/agwpe/demux.go:108-120 | the loop takes exactly the frames that got in, in order |
| Demux.ClientsServed | transport/ax25/agwpe/demux.go:148-183 | in every run no channel is closed twice or written after closing; a client has a prefix of the frames it wants since it registered, all of them while it is known and the loop rests; one frame at most if it asked for one; and its channel is closed when the loop is gone |
| Demux.LoopMoves | transport/ax25/agwpe/demux.go:148-183 | the loop can move if and only if it rests with a frame, a registration or the closing to take, or is not waiting for a client that neither reads nor cancels; it never waits for one that asked for one frame |
| Demux.ClosingEnds | transport/ax25/agwpe/demux.go:148-183 | after closing, whatever the clients do, the loop makes at most 2n + 7 steps for n clients, and while it is not gone, all channels closed, it can make one unless it waits for such a client |
| Demux.LockReleased | transport/ax25/agwpe/demux.go:122-146 | while a registration holds the lock nothing is enqueued and closing waits; the loop makes at most 2n + 7 steps before it takes the registration in, and can make one unless it waits for such a client |
| Demux.CloseWhen | transport/ax25/agwpe/demux.go:97-146 | in every state closing can happen, after nothing but steps of the loop, if and only if it is not the case that a registration is pending while a client the loop has still to look at wants the frame, has no room and has not cancelled |
| Demux.OnceNeverBlocks | transport/ax25/agwpe/demux.go:122-134 | a client that asked for one frame gets it without holding up the loop, and is gone |

## Left out

- LzhufRoundTrip.RoundTrip: is stated for texts whose codes are carried and whose size is reached at the end, because `putCode` and `encodeEnd` lose bits of others and the counters wrap; TokensReadBack says the condition is exact for the tokens decoded; that other tokens cannot give the same text by chance is not claimed
- LzhufRoundTrip.Decompress: same condition on the text as RoundTrip
- LzhufRoundTrip.PayloadDecodes: says nothing of texts whose codes are not carried
- Delivery.Deliver: same condition on the text as RoundTrip
- LongParse.LongCodesOccur: is about a parse of a text; that the matches the writer itself chooses for some text lead to such counts is not shown
- LzhufRoundTrip.OversizeNotDelivered: leaves out size fields that wrap to within 60 of 2^31, for which PayloadDecodes gives the exact condition if the codes are carried
- WriterGreedy.WriterChooses: is stated for orderly texts only; OrderedThroughout says this is exact for the order of the trees, MatchMissed that the claim fails beyond, and which other texts lose a match is not characterised
- WriterGreedy.WriterChooses: which of several longest matches is taken is stated among the positions compared only, in MatchFinder.DescendBest
- Proposals.BlockReadsBack: MIDs with a space or a carriage return, which no message has, are not covered
- Turn.TurnReadsBack: MIDs beyond ASCII, which no message has, are not covered: the program's strings are UTF-8
- Framing.FrameReads: titles with a NUL are not covered; the title is taken as already word-encoded
- The session object's buffers and connection: `Station` keeps the flags, the place in the turn and the mailbox as fields; lines arrive and leave as values
- Malformed compressed streams: the reader is total on them in the model, but nothing is proved about what it outputs
- Gzip proposals' payload, MIME word encoding, message headers and their parser: libraries; a message is opaque bytes
- Handshake, SID exchange, secure login, message of the day, environment-variable experiments: the session starts after them
- Comment lines between turns: neither station of the session model sends any; `Proposals` skips them
- Status updates, logging, robust mode, flushing, deadlines and traffic statistics: no effect on what is transferred
- File-system errors of the mailbox: directories are sets of MIDs; a write that fails is a station failing
- Which messages a remote is entitled to: case folding of addresses is taken as done
- The internals of the sort library: any outcome that is sorted, or stably sorted, is covered
- Chained demultiplexers, and calling a cancel function twice
- ARDOP, telnet, Linux AX.25, Kenwood and hamlib code, the other AGWPE code, URL parsing, position reports: I/O, foreign calls or thin wrappers
