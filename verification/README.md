# Havok MUD: a verified model

A model in Dafny 4.11 of the parts of the Havok MUD server that are hardest to get right, with proofs of what
they do. `dafny verify dfyconfig.toml` checks all of it.

| file | models |
|---|---|
| `Basics.dfy`, `Shapes.dfy`, `KeyOrder.dfy` | trees as values (in-order lists, balance, places in a tree) and the key comparisons |
| `TreeLinks.dfy`, `BalancedBTree.dfy` | `util/balanced_btree.c`: the linked tree that every lookup table is built on, changed in place |
| `WordBits.dfy`, `SixWords.dfy`, `SixWordTexts.dfy` | `util/btoe.c`: 64 bits as six English words (section 6 of RFC 2289) |
| `LineSplitter.dfy`, `ByteBuffer.dfy`, `InputPipeline.dfy` | `util/buffer.c`, the read branch of `threads/connections.c`, `threads/input.c`: bytes to lines across two threads |
| `Containment.dfy` | `corefunc/object_data.c`: objects in objects, objects carried by characters, and their weights |
| `NameTrees.dfy`, `AttributeTables.dfy`, `Attributes.dfy`, `AttributeTexts.dfy` | `corefunc/json_attribs.c`: a character's two attribute indexes, saving and loading |
| `Dice.dfy`, `LoginStates.dfy`, `LoginRuns.dfy`, `LoginAddresses.dfy`, `LoginMachine.dfy` | `corefunc/login-sm.c` with `corefunc/dice.c`: login, accounts and character creation |
| `BaseConversion.dfy`, `KeywordMatch.dfy`, `PartialMatch.dfy` | `rstr2any` of `havokweb/md5.js`, `KeywordsMatch` of `corefunc/keywords.c` |

Code that updates things in place is modelled by classes, arrays and loops whose contracts tie the new state to
a function of the old one; the lemmas are about those functions. Inputs from outside (the network, the clock,
`random()`, the database, password hashes, JSON text) are parameters.

## What is proved

- **Balanced tree.** Rebalancing ends, keeps the in-order list and all parent and child links, and leaves every node
  balanced. Every run of adds with fresh keys, removes and rebalances refines a finite map. A walk with FindNext
  visits every item once, in order. A tree left by a rebalancing operation has least height, and Find makes no more
  comparisons than that. Prefix search finds an item just when there is one.
- **Six words.** Decoding answers with given eight bytes exactly for the texts whose first 64 characters spell their
  six words, in any letter case, with any separators and with 1, 0 and 5 for L, O and S behind the first letter of a
  word. So decoding an encoding gives the bytes back, and encoding what was decoded gives the words read. The two bytes
  that `extract` reads behind the nine-byte buffers are arbitrary in the model and do not matter.
- **Input.** In every interleaving of the two threads nothing is lost, no buffer overflows and no byte lies in a buffer
  that nobody is going to look into; connections are served in the order of their bytes, and without more input both
  threads come to rest with empty buffers. However the stream is cut into chunks, the lines are those of the whole: the
  stretches between the newlines less their leading bytes below a space and their trailing carriage returns.
- **Containers.** Over every run the containers stay a forest, and every object keeps its own weight.
- **Attributes.** The two indexes stay transposes of each other and hold the last value written; saving and loading
  rebuilds both, when the JSON library gives back what it prints for that character. One library that does so for
  every character is exhibited.
- **Login.** Over every run: no way round the password, none to character creation without a confirmed address, no
  unconfirmed password saved, no more rolls than granted, and no address but the one on the line that opened the
  account.
- **Keywords.** The exact condition on the sought words under which greedy matching misses no assignment.

## Where the code does less than one might expect

- `KeyCompareInt` subtracts in 32 bits, and the thread and pointer comparisons in 64. `KeyOrder.CompareIsExact` says
  exactly which pairs they order, and `KeyOrder.CompareRunsInACircle` gives three keys they order in a circle. The tree
  is therefore proved for key sets that the comparison orders, which all strings and every window of half the word's
  range are; within one, numbers compare by size and equal only themselves (`KeyOrder.WindowsAreOrdered`).
- `BalancedBTreeAdd` does not always refuse an equal key. `BalancedBTree.AddRefusesExactly` says that where one item
  has an equal key the new one is refused just when that item has no right child (`Shapes.AcceptsExactly`), and
  `Shapes.DuplicateIsAccepted` gives a tree that ends up with two equal keys. The runs add fresh keys only.
- The line splitter stops at an embedded NUL byte. `LineSplitter.SplitIsLines` gives the exact condition (`Clean`)
  under which it agrees with plain line splitting; on other streams it hands on the lines before the first unclean one
  and keeps everything from there on (`LineSplitter.UncleanIsKept`).
- A digit typed for the first letter of one of the six words is skipped, since words are looked for by their first
  letter. `SixWordTexts.DecodeAfterEncode`: an encoding typed with 1, 0 and 5 for some L, O and S decodes to its bytes
  exactly when no word begins with such a digit; `SixWordTexts.DigitInFrontIsSkipped` is a text that does not.
- `objectPutInObject` does not add to the weight of a character who carries the container, while taking out subtracts.
  `Containment.PutKeepsCarryExactWhen` says exactly when a put keeps a character's weight right, and
  `Containment.RunKeeps` by how much a run falls behind. A put looks only for the target itself;
  `Containment.PutIsGroundedOnlyOutside` says that a put closes no circle just when its target is not inside
  what is put, which is what the model demands of callers, and `Containment.PutKeepsForest` that the lists stay right
  just when no one carries what is put.
- A confirmed account does not stay confirmed. Behind the password just one kind of line ends it, a yes or no to the
  ANSI question while no code is on record: `LoginRuns.ConfirmedExactly` for one line, `ConfirmedUntilAnswer` for runs,
  and `AnsiRunUnconfirms` is a run that gets there.
- `rstr2any` drops leading digits that do not fit, and prints an odd number of bytes as if a zero byte followed.
  `BaseConversion.PrintedExactly` says exactly when the digits denote the bytes' own number: for an even number of
  bytes just when it fits, for an odd number only when 255 times it is also a multiple of what the digits hold.
  `BaseConversion.OddInputIsLost`: 0xff in two hexadecimal digits comes out as 00.
- Partial keyword matching is greedy and can miss an assignment that exists: `KeywordMatch.GreedyCanMiss`.
  `PartialMatch.GreedyIsComplete` says exactly for which sought words it misses none, on any keywords: when no word
  fits more than a later one and all that the later one fits. For words compared in full that is, when no word is a
  proper prefix of a later one (`PartialMatch.FullWordsInOrder`).

## Model

| member | source | states |
|---|---|---|
| `KeyOrder.CompareIsExact` | util/balanced_btree.c:344-411 | for integer, thread and pointer keys: the machine difference has the sign of the comparison, and is zero only for equal keys, exactly when it fits into half the word's range |
| `KeyOrder.CompareRunsInACircle` | util/balanced_btree.c:344-411 | for each of these comparisons three keys of one word, each of which compares below the next |
| `KeyOrder.WindowsAreOrdered` | util/balanced_btree.c:344-411 | within a window of half the word's range, integer, thread and pointer comparison is the order of the numbers, and zero only for equal ones |
| `KeyOrder.LowerCodes` | util/balanced_btree.c:413-434 | letter case is that of the 26 Latin letters |
| `KeyOrder.TextEqualUpToCase` | util/balanced_btree.c:413-434 | two strings compare equal exactly when they are the same up to letter case |
| `KeyOrder.TextComparesAsInDictionary` | util/balanced_btree.c:413-434 | string comparison is negative exactly when the left string comes before the right one in a dictionary, up to letter case, and positive exactly when it comes after it |
| `KeyOrder.TextsAreOrdered` | util/balanced_btree.c:413-434 | string comparison is a total order on all strings |
| `KeyOrder.PartialIsPrefix` | util/balanced_btree.c:436-459 | partial comparison is zero exactly when the left string is a prefix of the right one up to case |
| `KeyOrder.PartialComparesFront` | util/balanced_btree.c:436-459 | otherwise it is the full comparison with as much of the right string as the left one is long |
| `KeyOrder.PartialFollowsOrder` | util/balanced_btree.c:436-459 | partial comparison against an ordered list goes from above to equal to below, never back |
| `Shapes.ShiftRightKeeps` | util/balanced_btree.c:632-658 | one pass to the right keeps the in-order list and brings the weights closer by two |
| `Shapes.ShiftLeftKeeps` | util/balanced_btree.c:660-685 | the same to the left |
| `Shapes.Settle` | util/balanced_btree.c:627-697 | the loop at one node ends with weights that differ by at most one, same in-order list |
| `Shapes.Rebalance` | util/balanced_btree.c:614-701 | for every tree: same in-order list and items, and every node ends balanced |
| `Shapes.RebalanceIsIdempotent` | util/balanced_btree.c:614-701 | rebalancing changes nothing exactly when the tree is balanced |
| `Shapes.BalancedHeight` | util/balanced_btree.c:614-701 | a balanced tree of n items has height h with 2^(h-1) <= n < 2^h |
| `Shapes.SearchFinds` | util/balanced_btree.c:318-333 | the descent finds a matching item exactly when there is one |
| `Shapes.SearchIsLogarithmic` | util/balanced_btree.c:318-333 | in a balanced tree of fewer than 2^k items the descent makes at most k comparisons |
| `Shapes.InsertInorder` | util/balanced_btree.c:461-484 | linking a new item in puts it into the in-order list at one place and moves nothing else |
| `Shapes.FreshIsAccepted` | util/balanced_btree.c:172-207 | a key equal to no stored key is always linked in |
| `Shapes.AcceptsExactly` | util/balanced_btree.c:172-207 | where at most one item compares equal, a key is linked in exactly when no equal item lacks a right subtree |
| `Shapes.DuplicateIsAccepted` | util/balanced_btree.c:172-207 | an equal key that is linked in: 5 into the tree of 5 and 7 gives 5, 5, 7 |
| `Shapes.RemoveInorder` | util/balanced_btree.c:531-612 | removing takes one item out of the in-order list and keeps the order of the others |
| `BalancedBTree.ReplacementIsNeighbour` | util/balanced_btree.c:276-288 | what takes the place of a removed item is its in-order neighbour on the heavier side, the next one when neither is, and sides that differed by at most one still do |
| `TreeLinks.WeightOf` | util/balanced_btree.c:486-505 | the weight of a linked subtree is the number of its items |
| `TreeLinks.FindGreatest` | util/balanced_btree.c:507-517 | the last item of the in-order list, or null |
| `TreeLinks.FindLeast` | util/balanced_btree.c:519-529 | the first item of the in-order list, or null |
| `TreeLinks.LiftGreatest` | util/balanced_btree.c:635-658 | in place, what becomes of every link of the subtree: the greatest item on the left is lifted to the root, the item below it takes its place |
| `TreeLinks.LiftLeast` | util/balanced_btree.c:661-684 | in place, what becomes of every link of the subtree: the least item on the right is lifted to the root, the item below it takes its place |
| `TreeLinks.Supplant` | util/balanced_btree.c:544-583 | in all five shapes of relinking the replacement heads the merged subtrees |
| `BalancedBTree.BTree.constructor` | util/balanced_btree.c:92-132 | a new tree is empty and valid |
| `BalancedBTree.BTree.Find` | util/balanced_btree.c:302-341 | returns a matching item if there is one and null only if there is none, with as many comparisons as the descent makes, at most k when balanced with fewer than 2^k items; by prefix on string keys, an item whose key begins with the text up to case exactly when there is one |
| `BalancedBTree.BTree.FindParent` | util/balanced_btree.c:461-484 | the place where the new item belongs, and whether an equal key ends the descent |
| `BalancedBTree.BTree.SettleAt` | util/balanced_btree.c:627-697 | the loop on linked items settles the subtree in its place |
| `BalancedBTree.BTree.RebalanceAt` | util/balanced_btree.c:614-701 | the linked subtree at any place becomes its rebalanced tree, and the rest stays linked |
| `BalancedBTree.BTree.Add` | util/balanced_btree.c:146-218 | the tree is the old one with the item linked in unless refused, balanced with the same in-order list if asked; null only rebalances |
| `BalancedBTree.AddRefusesExactly` | util/balanced_btree.c:172-207 | in an ordered tree with one equal key the new item is refused exactly when that item has no right child |
| `BalancedBTree.BTree.Replace` | util/balanced_btree.c:531-612 | the merged subtrees take the item's place and the item's own links are cleared |
| `BalancedBTree.BTree.Remove` | util/balanced_btree.c:240-300 | the tree is the old one without the item, rebalanced if asked, for items that are linked in; an item of another tree changes nothing |
| `BalancedBTree.BTree.ClearVisited` | util/balanced_btree.c:703-731 | no item is marked as visited |
| `BalancedBTree.BTree.FindNext` | util/balanced_btree.c:852-892 | from the k-th item of the walk returns the next one or null; the visited items are then the first k + 1 of the in-order list |
| `BalancedBTree.BTree.Walk` | corefunc/object_data.c:1613-1640 | clearing, finding the least and repeating FindNext lists every item once, in order |
| `BalancedBTree.PrefixSearch` | util/balanced_btree.c:302-341 | the alternate search returns an item exactly when some stored key begins with the sought text up to case, and then such a one |
| `BalancedBTree.AfterByLastWord` | util/balanced_btree.c:146-300 | after a run an item is in the tree exactly when it was added and not removed since |
| `BalancedBTree.RunKeepsUnique` | util/balanced_btree.c:146-300 | runs that add fresh keys keep the keys unique |
| `BalancedBTree.Run` | util/balanced_btree.c:146-300 | every legal run, rebalancing or not, keeps a valid tree that holds exactly the items it should |
| `BalancedBTree.RunAndFind` | util/balanced_btree.c:146-341 | after any legal run looking a key up returns the one item added under it and not removed, or null |
| `WordBits.LayoutIsPositional` | util/btoe.c:2227-2251 | the six words are the base-2048 digits of the 66-bit number in the nine bytes |
| `WordBits.FieldsAreUnpacked` | util/btoe.c:2253-2267 | the six extracted 11-bit fields, whatever lies behind the bytes |
| `WordBits.UnpackedThenBytes` | util/btoe.c:2227-2267 | inserting the extracted fields gives the bytes back |
| `WordBits.BytesThenUnpacked` | util/btoe.c:2227-2267 | extracting the inserted words gives the words back |
| `WordBits.InsertNext` | util/btoe.c:2227-2251 | inserting the next word into the bytes of those before gives the bytes of all of them |
| `SixWords.WordSearch` | util/btoe.c:2203-2225 | the binary search returns the index of the word, or a negative number when it is not in that half |
| `SixWords.InsertField` | util/btoe.c:2227-2251 | or-ing a field into the array |
| `SixWords.Encode` | util/btoe.c:2094-2118 | the loops compute the encoding, whatever the bytes behind the buffer |
| `SixWords.TakeToken` | util/btoe.c:2144-2158 | in place: the buffer then holds the word mended and in upper case, with the rest of the text untouched behind it; which word that is, `WordIsToken` says in characters |
| `SixWords.ReadWord` | util/btoe.c:2144-2179 | one word read and looked up, with each of the ways to fail |
| `SixWords.ReadAll` | util/btoe.c:2142-2180 | the loop over six words leaves their bytes in the buffer |
| `SixWords.Decode` | util/btoe.c:2126-2198 | the loops compute the decoding, which `DecodesExactly` and `FailsExactly` describe in characters |
| `SixWords.EncodeAfterDecode` | util/btoe.c:2094-2198 | whenever decoding returns 1, encoding its bytes gives the six normalised words read |
| `SixWordTexts.ChecksumIsBase4Sum` | util/btoe.c:2101-2105 | the checksum is the digit sum, in base 4, of the bytes as one number |
| `SixWordTexts.EncodingIs` | util/btoe.c:2094-2118 | the encoding is the six dictionary words, with single spaces, that are the base-2048 digits of the bytes' number followed by two bits of that digit sum |
| `SixWordTexts.WordIsToken` | util/btoe.c:2144-2158 | the next word read is the one that stands, as typed, behind the characters before the first letter, and no other |
| `SixWordTexts.DecodesExactly` | util/btoe.c:2126-2198 | decoding returns 1 and these bytes exactly when the first 64 characters spell the six words of their number, in any case, with 1, 0, 5 for L, O, S behind a first letter and anything else between words |
| `SixWordTexts.FailsExactly` | util/btoe.c:2120-2198 | the other answers: 1 or -2 exactly when six dictionary words are spelled, 0 exactly when one of one to four letters is not in the dictionary and those before it are, -1 otherwise, and then eight zero bytes |
| `SixWordTexts.DecodeAfterEncode` | util/btoe.c:2094-2198 | an encoding typed in any letter case, with any L, O and S also typed as 1, 0 and 5, decodes to 1 and its bytes exactly when no word begins with such a digit |
| `SixWordTexts.DigitInFrontIsSkipped` | util/btoe.c:2144-2154 | an encoding that begins with L, typed with 1 there, does not |
| `LineSplitter.SplitInChunks` | threads/input.c:150-231 | for every stream, NUL bytes included, splitting a part and then its remainder with the next part is splitting both at once |
| `LineSplitter.DrainsSplitTheStream` | threads/input.c:150-231 | any way of cutting a stream into chunks gives the lines and remainder of splitting it once |
| `LineSplitter.SplitIsLines` | threads/input.c:182-228 | the splitter agrees with plain line splitting, written on byte values, exactly on clean streams, and always hands on a prefix of those lines |
| `LineSplitter.UncleanIsKept` | threads/input.c:182-228 | on any other stream the remainder is everything from the first unclean line on |
| `LineSplitter.LinesLieBetween10s` | threads/input.c:182-228 | the plain lines of a stream are the stretches between its bytes of value 10, each trimmed, and the remainder is the last stretch |
| `LineSplitter.TextOfMeans` | threads/input.c:183-189 | what is dropped in front is the longest prefix of bytes below 32, and nothing else gives that |
| `LineSplitter.LessFinal13sMeans` | threads/input.c:198-203 | what is dropped at the end is the longest suffix of bytes of value 13 |
| `ByteBuffer.Buffer.constructor` | util/buffer.c:62-93 | a new buffer is empty |
| `ByteBuffer.Buffer.AvailWrite` | util/buffer.c:160-180 | what has been read, what is held and the room make up the size; zero exactly when the full flag is set, all of it when empty |
| `ByteBuffer.Buffer.AvailRead` | util/buffer.c:182-202 | the number of bytes held, zero exactly when the empty flag is set |
| `ByteBuffer.Buffer.Write` | util/buffer.c:204-213 | the bytes written are appended |
| `ByteBuffer.Buffer.Read` | util/buffer.c:215-225 | the bytes read are the first ones, and leave |
| `ByteBuffer.Buffer.ConditionUpdate` | util/buffer.c:227-267 | head <= tail <= size with flags that say so, and no byte is lost by the reset |
| `ByteBuffer.Buffer.Clear` | util/buffer.c:145-158 | the buffer is empty |
| `InputPipeline.StepKeeps` | threads/connections.c:287-334 | each step of either thread keeps: written = drained + buffered, lines = split of drained, every non-empty buffer announced |
| `InputPipeline.EveryRun` | threads/connections.c:287-334 | the same for every interleaving, with the bytes the run wrote |
| `InputPipeline.NothingIsStranded` | threads/input.c:141-231 | when both threads are idle everything written has been cut into lines |
| `InputPipeline.TakenUpInOrder` | threads/connections.c:287-334 | in every run connections are taken up in the order in which they got bytes, each as often |
| `InputPipeline.ComesToRest` | threads/input.c:141-231 | from every reachable state the two threads can go on without input until both are idle and every buffer is empty |
| `InputPipeline.Connection.Receive` | threads/connections.c:287-334 | the read branch is the fill step, taken and announced just when there is room |
| `InputPipeline.Connection.HandleInput` | threads/input.c:141-231 | the handler is the drain step |
| `InputPipeline.Connection.SplitBuffer` | threads/input.c:182-228 | the loop over the copied bytes hands on the lines of the split and keeps its remainder |
| `Containment.PutIsGroundedOnlyOutside` | corefunc/object_data.c:759-789 | a put closes no circle exactly when the target's outermost container is not the object put |
| `Containment.PutMovesATree` | corefunc/object_data.c:773-782 | everything below the object put gets the target's outermost container, nothing else moves |
| `Containment.AddAboveOwn` | corefunc/object_data.c:780-782 | the walk up the containers changes the own weight of its first container only |
| `Containment.PutKeepsForest` | corefunc/object_data.c:759-789 | a put leaves acyclic containers, right content lists and right chains exactly when no one carries the object |
| `Containment.PutKeepsOwn` | corefunc/object_data.c:759-789 | no object's weight without its contents changes |
| `Containment.PutSlack` | corefunc/object_data.c:759-789 | only the carrier of the target's outermost container falls behind, by the weight put |
| `Containment.PutKeepsCarryExactWhen` | corefunc/object_data.c:759-789 | a carrier's weight stays exact just when the object weighs nothing or goes into nothing he carries |
| `Containment.TakeOutKeepsForest` | corefunc/object_data.c:796-860 | taking out keeps containers acyclic and content lists right |
| `Containment.TakeOutKeepsOwn` | corefunc/object_data.c:796-860 | no object's weight without its contents changes |
| `Containment.TakeOutSlack` | corefunc/object_data.c:796-860 | a carrier's weight and chain change together |
| `Containment.GiveKeeps` | corefunc/object_data.c:865-889 | giving keeps chain, weight and count together |
| `Containment.TakeBackKeeps` | corefunc/object_data.c:893-950 | taking back keeps chain, weight and count together |
| `Containment.RunKeeps` | corefunc/object_data.c:759-950 | over every run: forest, own weights, and a carrier behind by exactly what was put into his things |
| `Containment.CarryStaysExact` | corefunc/object_data.c:796-950 | without puts a carried weight and count stay the sum and length of the chain |
| `Containment.World.ContainedWeight` | corefunc/object_data.c:1182-1199 | the loop computes weight minus own weight |
| `Containment.World.PutInObject` | corefunc/object_data.c:759-789 | with both guards, and wherever the object is so long as it is on no content list and the target is not inside it: it ends inside the target, last on its list, carried and equipped by no one |
| `Containment.World.TakeFromObject` | corefunc/object_data.c:796-860 | an object leaves its container and just its own place on the list exactly when it is in one and is carried, equipped and in a room by none; otherwise nothing changes |
| `Containment.World.GiveToChar` | corefunc/object_data.c:865-889 | exactly when it is in no container, carried, equipped or in a room by none, an object becomes the head of the chain, with weight and count; otherwise nothing changes; the links run along the chain |
| `Containment.World.TakeFromChar` | corefunc/object_data.c:893-950 | exactly when it is carried and not equipped an object leaves just its own place on the chain, found by following the links, with weight and count; otherwise nothing changes |
| `Containment.World.Run` | corefunc/object_data.c:759-950 | a sequence of calls leads to the state the runs are about |
| `NameTrees.FoundInView` | corefunc/json_attribs.c:144-157 | finding a name in a tree is looking it up in a map keyed up to letter case |
| `NameTrees.ReassignedView` | corefunc/json_attribs.c:176-186 | replacing an item's value changes one entry of the map |
| `NameTrees.InsertedView` | corefunc/json_attribs.c:176-186 | adding a new name adds one entry |
| `AttributeTables.WriteKeepsTransposed` | corefunc/json_attribs.c:105-214 | writing the fields of one source into both indexes keeps them transposes |
| `AttributeTables.RunKeepsTransposed` | corefunc/json_attribs.c:105-214 | every sequence of writes does |
| `AttributeTables.RunHoldsLastWritten` | corefunc/json_attribs.c:105-214 | under every attribute and source the value written last is found |
| `AttributeTables.LastWrittenMeans` | corefunc/json_attribs.c:105-214 | that value is of a field of this attribute and source after which no write has another |
| `AttributeTables.TransposeIsUnique` | corefunc/json_attribs.c:216-346 | the index by source determines the other |
| `Attributes.Character.AddJSONToTrees` | corefunc/json_attribs.c:105-214 | both indexes are written, every tree at both levels ends in order and balanced; blank text changes nothing |
| `Attributes.Character.SetAttribute` | corefunc/json_attribs.c:841-924 | what the printed text parses to is written in both indexes: one cell when that is one field |
| `Attributes.SettersPrint` | corefunc/json_attribs.c:841-924 | the texts: a string in quotes or null, true or false in words, a number in decimal with its sign |
| `Attributes.StripMeans` | corefunc/json_attribs.c:126-133 | blank is white space only, and a text is parsed without the blanks around it |
| `Attributes.Character.AddAll` | corefunc/protobuf_api.c:273-276 | adding a list of sources is the run of writes |
| `Attributes.AppendAttribToJSON` | corefunc/json_attribs.c:216-231 | appends the attributes in order |
| `Attributes.AppendSourceToJSON` | corefunc/json_attribs.c:233-255 | appends every source with its attributes in order, and counts them |
| `Attributes.SavedInOrder` | corefunc/json_attribs.c:216-255 | sources and their attributes come in the order of their names |
| `Attributes.ExtractJSONFromTree` | corefunc/json_attribs.c:257-293 | one text for every source, those without attributes included |
| `Attributes.CombineJSON` | corefunc/json_attribs.c:295-314 | one text, of what every source's text parses to, in order |
| `Attributes.ParsedAgain` | corefunc/json_attribs.c:257-314 | if parsing undoes printing for these branches, combining their texts prints these branches |
| `Attributes.SplitJSON` | corefunc/json_attribs.c:316-346 | the texts of the sources again |
| `Attributes.BranchesRebuild` | corefunc/json_attribs.c:216-346 | writing what is extracted from a tree into nothing gives the tree's two-level map |
| `Attributes.SaveAndLoad` | corefunc/protobuf_api.c:308-310 | extract, combine, split and add into an empty character gives both indexes back, if parsing undoes printing for the branches of this character |
| `AttributeTexts.LibraryExists` | corefunc/json_attribs.c:216-346 | some printing and parsing of objects of scalars satisfies that for every character |
| `AttributeTexts.WriteSaveAndLoad` | corefunc/protobuf_api.c:273-310 | texts added one after the other, saved and loaded: both indexes hold, for every attribute and source, what was written last |
| `AttributeTexts.Example` | corefunc/json_attribs.c:105-214 | a library and a text of one attribute that meet what saving and loading ask |
| `Dice.KeptIsBest` | corefunc/dice.c:81-129 | some top dice add up to the result and no top dice to more |
| `Dice.KeptBetween` | corefunc/dice.c:81-129 | the result lies between top and top times size |
| `Dice.Roll` | corefunc/dice.c:81-129 | the loops compute it, and 0 for impossible arguments |
| `LoginStates.ScoresAreBestThree` | corefunc/login-sm.c:1649-1678 | each of the six scores is the most that three of its own four six-faced dice show |
| `LoginStates.SkipSpacesMeans` | util/text_process.c:52-70 | what a handler sees is the line from its first character that is no white space on, or nothing when there is none |
| `LoginStates.Same32Means` | corefunc/login-sm.c:803-819 | hashes match when they agree in their first 32 characters, or in all when they are as short |
| `LoginStates.StepEnters` | corefunc/login-sm.c:1618-1644 | the state after a line is the one the handler names, or the one before; entering it changes nothing else unless to reroll |
| `LoginRuns.HandleKeeps` | corefunc/login-sm.c:694-1267 | what every handler keeps to: reachable next states, confirmed accounts, the same account behind the password |
| `LoginRuns.HandleTracks` | corefunc/login-sm.c:694-1267 | what every handler does to passwords, and which records it saves |
| `LoginRuns.HandleLawful` | corefunc/login-sm.c:694-1267 | these two together, and that no handler makes rolls that were not granted: what every handler method keeps to |
| `LoginRuns.StepAdvances` | corefunc/login-sm.c:1618-1644 | the same for one line of input, state entered |
| `LoginRuns.EveryState` | corefunc/login-sm.c:149-195 | in every run: the WMOTD, press-enter, login-menu, wait-for-auth, edit-description and delete-user states are never entered; player list, creation and play only with a confirmed account |
| `LoginRuns.DisconnectedForGood` | corefunc/login-sm.c:1618-1644 | once disconnected nothing changes any more |
| `LoginRuns.BehindAPassword` | corefunc/login-sm.c:803-846 | in every run, behind the account menu there was a matching password for this very account, and the session has been there since |
| `LoginRuns.SavedPasswordsAreEarned` | corefunc/login-sm.c:1002-1047 | every account record saved carries the password it was loaded with or one that two consecutive lines entered alike |
| `LoginRuns.ConfirmedOnGrounds` | corefunc/login-sm.c:1049-1073 | a confirmed account was loaded so or its mailed code was entered |
| `LoginRuns.EveryLogin` | corefunc/login-sm.c:694-1267 | these together, for every run |
| `LoginRuns.MismatchSavesNothing` | corefunc/login-sm.c:803-819 | a mismatched confirmation changes neither password nor saved records |
| `LoginRuns.ConfirmedExactly` | corefunc/login-sm.c:848-1073 | behind the password, after a line the account is confirmed exactly when the line gives its code, or it was and the line is no yes or no to the ANSI question without a code on record |
| `LoginRuns.ConfirmedUntilAnswer` | corefunc/login-sm.c:848-881 | in every run a confirmed account stays so up to the first such answer, and is unconfirmed right after it |
| `LoginRuns.AnsiRunUnconfirms` | corefunc/login-sm.c:848-881 | a run of four lines in which a confirmed account logs in and is unconfirmed |
| `LoginAddresses.EveryAddressIsTheOpened` | corefunc/login-sm.c:694-759 | in every run the address at hand is the one parsed, or that of the stored record, on the line that opened the account, and has not changed since |
| `LoginAddresses.EverySavedAddressWasOpened` | corefunc/login-sm.c:694-1267 | and so for every account record saved |
| `LoginRuns.RolledIsBudgeted` | corefunc/login-sm.c:1649-1678 | a roll spends one of what is left and gives six scores of 3 to 18 |
| `LoginRuns.StepBudgets` | corefunc/login-sm.c:1164-1225 | one line keeps rolls made plus rolls left at what was granted, which for a new character is MaxReroll + 1 |
| `LoginRuns.RunBudgets` | corefunc/login-sm.c:1164-1225 | in every run, for the character at hand and every one saved |
| `LoginMachine.Player.constructor` | corefunc/login-sm.c:1751-1759 | the session after the banner |
| `LoginMachine.Player.CreateSendConfirmEmail` | corefunc/login-sm.c:1966-2000 | address and password stay; the account stays confirmed exactly when it was and had a code; one that had none is saved with the new code, unconfirmed |
| `LoginMachine.Player.RollAbilities` | corefunc/login-sm.c:1649-1678 | the loops over the dice; a character within its budget stays within it |
| `LoginMachine.Player.EnterState` | corefunc/login-sm.c:371-395 | the state ends up as asked whatever was entered on the way; only mailing a code touches account and saved records, only rerolling the character, within its budget |
| `LoginMachine.Player.GetEmail` | corefunc/login-sm.c:694-759 | keeps to `HandleLawful`; says exactly when it leads to the password (of the stored account), to a new account (which carries the address parsed and nothing else), back, or out; nothing is saved |
| `LoginMachine.Player.ConfirmEmail` | corefunc/login-sm.c:761-783 | keeps to `HandleLawful`; y leads to the password and n back to the address, in either case; nothing changes but the state |
| `LoginMachine.Player.GetNewUserPassword` | corefunc/login-sm.c:785-801 | keeps to `HandleLawful`; goes on exactly with 1 to 10 characters and then the account's password is their hash with its address; nothing is saved |
| `LoginMachine.Player.ConfirmPassword` | corefunc/login-sm.c:803-819 | keeps to `HandleLawful`; goes on exactly when the hash of the entry agrees with the one at hand in 32 characters, and changes nothing |
| `LoginMachine.Player.GetPassword` | corefunc/login-sm.c:821-846 | keeps to `HandleLawful`; leads behind the password exactly when the hash of the entry agrees with the stored one in 32 characters, otherwise out, and changes nothing |
| `LoginMachine.Player.ChooseAnsi` | corefunc/login-sm.c:848-881 | keeps to `HandleLawful`; y and n set the colours on and off and save that, and once more with a new code, unconfirmed, when none was on record; anything else changes nothing |
| `LoginMachine.Player.ShowMenu` | corefunc/login-sm.c:947-995 | keeps to `HandleLawful`; which key leads where, and for whom; only r for an unconfirmed account without a code changes anything, and saves it with one |
| `LoginMachine.Player.GetNewPassword` | corefunc/login-sm.c:1002-1018 | keeps to `HandleLawful`; goes on exactly with 1 to 10 characters, whose hash is kept apart: the password itself stays and nothing is saved |
| `LoginMachine.Player.ConfirmNewPassword` | corefunc/login-sm.c:1020-1047 | keeps to `HandleLawful`; the password becomes the new one and is saved exactly when the hash of the entry agrees with it in 32 characters; otherwise nothing changes |
| `LoginMachine.Player.EnterConfirmCode` | corefunc/login-sm.c:1049-1073 | keeps to `HandleLawful`; any entry saves the account, confirmed and without its code exactly when the entry is that code up to case |
| `LoginMachine.Player.ChooseFromMenu` | corefunc/login-sm.c:1075-1162 | keeps to `HandleLawful`; which key leads where, and on which answers of the old record; nothing changes but the state |
| `LoginMachine.Player.ChooseName` | corefunc/login-sm.c:1164-1225 | keeps to `HandleLawful`; a name of another account is refused, one's own is loaded unless complete, a new one renames the character at hand or makes one of this account within its budget of MaxReroll + 1 rolls; what is saved |
| `LoginMachine.Player.ChooseSex` | corefunc/login-sm.c:1227-1261 | keeps to `HandleLawful`; m, f and n set 1, 2 and 0, anything else asks again; nothing else of the character changes but its id |
| `LoginMachine.Player.HandleLine` | corefunc/login-sm.c:1618-1644 | one line is one step of the state machine: the session stays good, advances as in the runs and stays within its budgets |
| `LoginMachine.Serve` | corefunc/login-sm.c:1618-1644 | the sessions between the lines of a connection are a run |
| `BaseConversion.Divide` | havokweb/md5.js:133-142 | the inner loop divides a number of 16-bit words: quotient and remainder |
| `BaseConversion.Convert` | havokweb/md5.js:110-153 | all digits are below the base and denote the number of the bytes, padded to an even number of them, modulo what the digits hold; the bytes' own number for an even number of bytes that the digits can hold |
| `BaseConversion.PrintedExactly` | havokweb/md5.js:110-153 | the digits denote the bytes' own number exactly when it fits and, for an odd number of bytes, 255 times it is a multiple of what the digits hold |
| `BaseConversion.OddInputIsLost` | havokweb/md5.js:118-123 | an input that fits and is lost: the byte 255 in two hexadecimal digits denotes 0 |
| `KeywordMatch.UniformMatch` | corefunc/keywords.c:175-217 | by whole words, or by partial words of one length: true exactly when the sought words are a sub-multiset of the keywords up to case, the same multiset when exact |
| `KeywordMatch.MatchAssigns` | corefunc/keywords.c:175-217 | a match, partial or not, gives every word a keyword of its own that it fits |
| `KeywordMatch.FitsMeans` | corefunc/keywords.c:193-202 | a word fits a keyword exactly when they agree up to case in all characters, or for a partial match in as many as are compared |
| `KeywordMatch.FitIsPrefix` | corefunc/keywords.c:193-199 | a full-length partial fit is a prefix up to case |
| `KeywordMatch.GreedyCanMiss` | corefunc/keywords.c:191-215 | an input on which partial matching fails though an assignment exists |
| `PartialMatch.GreedyIsComplete` | corefunc/keywords.c:175-217 | the match succeeds on every keyword list that has an assignment exactly when no sought word fits more than a later one and all that one fits, for words compared by any lengths |
| `PartialMatch.FullWordsInOrder` | corefunc/keywords.c:193-199 | for partial words compared in full: exactly when no word is a proper prefix, up to case, of a later one |
| `PartialMatch.GreedyMissesNothing` | corefunc/keywords.c:191-215 | from any point of the loop on, words in that order are matched whenever the unmarked keywords have an assignment |
| `KeywordMatch.Match` | corefunc/keywords.c:175-217 | the loops that mark keywords in place decide the match, and leave marked just the keywords that the words took |

## Left out

- Mutexes, condition signals, memory allocation and logging; only the buffer between the two threads is modelled with its interleavings.
- NULL trees, keys, players and argument structures, and the payload pointer of tree items.
- `BalancedBTreePrune` and `BalancedBTreeDestroy`, `FindLeastInRange` and `FindNextInRange`: they free memory, or depend on the shape of the tree.
- BalancedBTree.BTree.FindNext: for walks that begin with ClearVisited and FindLeast; others, such as the one in `FindCommand`, depend on the marks that earlier walks left.
- BalancedBTree.BTree.Remove: not for an item that Add refused. Its tree and parent links are set although nothing points to it, and the source would then clear the parent's right link, under which other items may hang by that time.
- The 2048 words of the six-word dictionary: the model takes any dictionary with their lengths and order.
- End of file, disconnection and the flush flag in the input threads, reads beyond the copied bytes, and failing allocations.
- Containment.World.PutInObject: not for an object that is on a content list already, whose list links would be overwritten, nor into something inside the object itself, where the walk up would not end. Objects and their link fields are tables in one class here, so the model has numbers where the source has pointers; the keyword trees and `save_room` are not part of it.
- Attributes.Character.AddJSONToTrees: the trees are values here, changed by the tree operations that the linked tree is proved against; JSON values are scalars, as the cloning of the source keeps no children.
- Attributes.Character.SetAttribute: the text must parse; `SetAttributeDouble`, which prints with %f, is not modelled, and what a text with quotes in its value parses to is up to the library.
- Attributes.SaveAndLoad: takes parsing to undo printing for the branches of the character at hand. The bundled library prints numbers with limited precision, so that is not so for every character; numbers are a mantissa and an exponent here.
- Reading aggregated attributes, deleting attributes, and characters without trees.
- LoginMachine.Player.ShowMenu and the other handlers: text output, the old character record behind the class, sex, alignment and stats questions (what it answers is a parameter), and the sending of mail.
- LoginRuns.RunBudgets: characters the database returns are taken to be budgeted; those saved are proved to be.
- BaseConversion.Convert: the number of digits, computed in floating point, is a parameter.
- The object keyword and type trees, `objectExtract`, `StringToKeywords`, the editor, weather, commands, the database and web services.
