# A verified model of the template engine, the chat rooms and three small algorithms

This project models the behaviour of the repository's HTML template library (`acl/app/wizard/tpllib.cpp`),
of its chat server, and of three self-contained algorithms, and proves what each of them promises.

**The template engine.** A template text is parsed into a tree of sections. Each section is a C record with a
list of text and field nodes, a hash table of field cells, a hash table and a list of child sections anchored in
the node list, and a chain of content that was appended to it. The model keeps that heap: `Node`, `FieldCell`,
`SectionCell` and `Template` are classes with the pointers of the C structures, and every operation is an
imperative method with the branches and loops of the C function. Each record also carries a ghost description of
the section it stands for, so that a whole heap (`Dom`) stands for a document (`Doc`): a finite map from section
paths to sections. The documents are the functional reference. For every operation the method is proved to turn
a well-formed heap into a well-formed heap whose document is the reference's, and the properties of the engine
are proved about the reference.

- `Names`, `HashLaws`, `Document`, `Grammar`: names and their hash, documents and rendering, texts and their pieces.
- `Canonical`, `Build`, `Unbuild`: which pieces come back when written and read, the document built from pieces,
  and the pieces read back off a document.
- `Heap`, `Frames`, `Account`, `Chains`, `Fields`, `Growth`, `Sections`, `Join`: the records, their invariant, which
  blocks hang where, and the single steps on them.
- `Search`, `Construct`, `Content`, `Append`, `Selection`, `Setting`, `Reset`, `Release`, `SetSection`, `Copy`: the
  operations of the library, one file each.
- `Run`, `RunLaws`, `Lifecycle`: sequences of operations, what they keep, and a template from its text to its end.
- `Filled`, `Shown`: what a template shows after a run, told from the pieces of its text and from the operations
  alone.
- `Decimal`, `Numbers`: integers written into fields and into the HTTP header.

**The chat server.** `ChatRooms` holds the room manager as a class whose methods are the regions in which the room
mutex is held. `ChatProtocol` is the transition system of any number of sessions over these regions, in every
interleaving. `ChatHistory` traces everything in a run back to the events it comes from, and requests forward to
what they lead to. One read of a connection is one packet, the password lookup is an oracle, and connections are
numbered, a number never being used twice.

**The algorithms.** `Trim` is the word-at-a-time search for trailing spaces, over explicit addresses. `Charset` is
the UTF-8 word count with its binary search. `Counter` is the counter shared by fibers under a mutex.

Memory is accounted for over a template's whole life. `Unheld` is the set of blocks that were made and hang in no
section. Operations that give nothing back leave it as it is; those that do take the set `freed` of blocks given
back so far, which equals `Unheld`, and return it grown, through `Destroy`, which admits a block once only.

Every lemma carries `{:induction false}`: all inductions are written out. A `hide` statement at the head of a body
keeps definitions that the proof does not need out of it.

The reference and the heap could be wrong alike. So what the reference says is also stated in terms that know
nothing of it: hashes by their bits, lookups by the names themselves, syntax by literal delimiters, pages by the
values set last and by what was shown at each append, codes by their numbers, a chat by its history, membership in
the word table by bytes, and a response by what a client reads.

Two facts about the C code decide how some results are stated. A bucket search compares only the bytes of the
searched name, so a name is found in the cell of a longer name of the same bucket that begins with it; `FirstFinds`
says exactly this, and only the results about pages and about lossless templates ask that no field name of a level
begins a longer one of its bucket filed before it (`FieldsApart`). And the test for a section head at the start of a
text looks one byte too far back; `GuardExact` says when that matters, `FirstTagMisread` what comes of it, and
`Construct` asks for a text that is not one of these (`Misread`). The names that reading reaches must not be
empty or contain a zero byte (`NamesClean`): hashing an empty name reads past its end, and so may comparing a name
with a zero byte in it.

## Model

| member | source | states |
|---|---|---|
| TplNames.TplHash | acl/app/wizard/tpllib.cpp:177-190 | the loop over the key's bytes ends with the bucket under which the name is filed |
| TplHashLaws.RoundFolds | acl/app/wizard/tpllib.cpp:183-188 | what one round leaves, in bits of `32 * h + c`: bits 0 to 3 and 8 to 27 as they are, bits 4 to 7 with the machine's exclusive or of bits 28 to 31 in them, and those cleared |
| TplHashLaws.HashTraced | acl/app/wizard/tpllib.cpp:177-190 | the bucket of a name is the last of such states, from its first byte on, modulo 29 |
| TplHashLaws.HashOfMessage | acl/app/wizard/tpllib.cpp:177-190 | a name long enough to fold: "message" lies in bucket 18 |
| TplNames.FirstFinds | acl/app/wizard/tpllib.cpp:198-208 | what a search by a name comes to is the first entry filed under the hash of the name whose own name begins with it, and nothing else |
| TplNames.FreeFindsSelf | acl/app/wizard/tpllib.cpp:192-263 | in a table where no entry was created while an earlier one answered to its name, every entry is found under its own name |
| TplNames.BucketHeadGrows | acl/app/wizard/tpllib.cpp:213-217 | linking a new cell behind the last of its bucket changes what the head of that bucket reaches, and nothing for any other bucket |
| TplNames.BucketCellGrows | acl/app/wizard/tpllib.cpp:213-217 | and it changes the successor of that one last cell only |
| TplSearch.StrStr | acl/app/wizard/tpllib.cpp:82-108 | the binary-safe search returns the first match at or after a position, or that there is none |
| TplGrammar.HeadIsAhead | acl/app/wizard/tpllib.cpp:299-312 | a section head never reaches back into a tag that was already read, so the text before it has no negative length |
| TplGrammar.LosslessText | acl/app/wizard/tpllib.cpp:274-400 | when a text is accepted, writing its pieces back (text, `$<name>`, tag body tag) gives the text |
| TplGrammar.Lossless | acl/app/wizard/tpllib.cpp:274-400 | the same from every position that reading reaches, at every depth |
| TplGrammar.LosslessSection | acl/app/wizard/tpllib.cpp:299-362 | the same when a section comes next |
| TplGrammar.PieceWritten | acl/app/wizard/lib_tpl.h:38-41 | how a piece is written, in literal delimiters |
| TplGrammar.Rejected | acl/app/wizard/tpllib.cpp:274-400 | of a text that is not accepted, the pieces are those of the text up to a place from which reading cannot go on (a delimiter never closed, a name taken, a section never closed or with a body in error), and of that place the text before the tag and, for a new name, the section, empty |
| TplCanonical.TagApart | acl/app/wizard/tpllib.cpp:331-340 | a section tag cannot overlap itself, so the first tag behind a body without one is its closing tag |
| TplCanonical.ReadsBack | acl/app/wizard/tpllib.cpp:274-400 | canonical pieces that are written out are accepted and read back as they were |
| TplCanonical.Accepted | acl/app/wizard/tpllib.cpp:274-400 | whatever is read from an accepted text is canonical |
| TplCanonical.RoundTrip | acl/app/wizard/tpllib.cpp:274-400 | pieces survive writing and reading if and only if they are canonical |
| TplBuild.AddFieldOk | acl/app/wizard/tpllib.cpp:192-220 | a field that shares a cell or makes one keeps the section in order: fields numbered by first use, no entry hidden by another |
| TplUnbuild.LosslessTemplate | acl/app/wizard/tpllib.cpp:274-400 | the template built from an accepted text writes back to the text if and only if no field name of a level is a proper prefix of one filed before it with the same hash |
| TplUnbuild.ApartMeans | acl/app/wizard/tpllib.cpp:192-220 | every field is shown by the cell of its own name if and only if the names of the level are apart in that sense |
| TplUnbuild.SharedCell | acl/app/wizard/tpllib.cpp:200-208 | a text on which this fails: `$<a>` behind `$<aC>` shares the cell of `aC` |
| TplUnbuild.RenderBuilt | acl/app/wizard/tpllib.cpp:1122-1169 | a freshly built template renders its texts, with empty fields and nothing for its sections |
| TplConstruct.GuardExact | acl/app/wizard/tpllib.cpp:298-303 | the test of the section branch is right unless the text begins with a head that lacks its first byte and that byte stands before the text |
| TplConstruct.FirstTagMisread | acl/app/wizard/tpllib.cpp:298-312 | on such a text the very first tag is taken for a section's, with a head that begins one byte before the text |
| TplConstruct.HeadlessTag | acl/app/wizard/tpllib.cpp:298-303 | one such text, `!-- $<x> -->` behind `<`; read as a text of its own it is a field between two texts |
| TplConstruct.ReachedTag | acl/app/wizard/tpllib.cpp:299-372 | the three ways on at a section tag: name taken, no closing tag or bad body, whole section |
| TplConstruct.NamesExact | acl/app/wizard/tpllib.cpp:374-393 | what is asked of the names in an accepted text is that each name in its pieces is not empty and holds no zero byte |
| TplConstruct.FillSection | acl/app/wizard/tpllib.cpp:342-362 | a child built apart is joined with the rest, and one in error is released and left empty, both well formed |
| TplConstruct.ConstructSection | acl/app/wizard/tpllib.cpp:299-372 | the section branch: text before the tag, the cell in its bucket and in the list, and the body read recursively |
| TplConstruct.ConstructField | acl/app/wizard/tpllib.cpp:374-393 | the field branch: text before the tag, and a node that shows the cell answering to the name |
| TplConstruct.Construct | acl/app/wizard/tpllib.cpp:274-400 | for every text whose first tag is not misread and whose names, as far as reading reaches, may be hashed, the heap stands for the pieces read up to the end or the first error, the code says which, and every pointer invariant holds |
| TplHeap.Template.constructor | acl/app/wizard/tpllib.cpp:402-409 | a new record is empty, selects itself, and `added_tail` addresses its own `added_head` |
| TplHeap.ChildOf | acl/app/wizard/lib_tpl.h:234-255 | every section below another is at or below one of the children in its list |
| TplContent.Length | acl/app/wizard/tpllib.cpp:1098-1114 | nodes and appended content, counted apart, give the length of the rendering, which `TplShown.HistoryShows` tells from the text and the operations |
| TplContent.GetContent | acl/app/wizard/tpllib.cpp:1122-1169 | the buffer holds exactly the rendering and a terminator, and nothing beyond is written |
| TplFilled.FilledShows | acl/app/wizard/tpllib.cpp:1122-1169 | a section made of pieces shows each text verbatim, each field as the value held under its name, and each section as what is appended to it |
| TplFilled.RunHolds | acl/app/wizard/tpllib.cpp:511-823 | after any run, a field of a section that was not replaced holds the value set last under its name, in that section or everywhere, unless a reset came after |
| TplFilled.RunShows | acl/app/wizard/tpllib.cpp:511-1169 | after any run, such a section shows its pieces with those values and with what is appended to its sections |
| TplShown.RunStands | acl/app/wizard/tpllib.cpp:511-1095 | after any run, what is appended to a section is what it showed at each append since it was emptied by its parent's append or a reset, or the text put in its place |
| TplShown.HistoryShows | acl/app/wizard/tpllib.cpp:511-1169 | so after any run every section shows what the text and the operations alone say |
| TplShown.Page | acl/app/wizard/tpllib.cpp:402-1169 | a page built from a text, taken through any operations and put out: its pieces, each field with the value set last, each section with what it showed whenever it was appended |
| TplShown.FillPage | acl/app/wizard/tpllib.cpp:402-1169 | a page on which only fields were set: the text with each field replaced by the value set last under its name, `Hello $<name>!` by `Hello Bob!`, and nothing for its sections |
| TplDocument.RenderLength | acl/app/wizard/tpllib.cpp:1098-1169 | the weave of items and children is as long as the two sums |
| TplDocument.RenderSkips | acl/app/wizard/tpllib.cpp:1017-1059 | children with nothing appended leave no trace, so the text around them is one run |
| TplDocument.RestCompletes | acl/app/wizard/tpllib.cpp:1122-1169 | what is written up to a child and what is left to write make up the whole content |
| TplChains.LinkAdded | acl/app/wizard/tpllib.cpp:1030-1032 | writing through `added_tail` hangs one more node at the end of the appended chain |
| TplChains.Splice | acl/app/wizard/tpllib.cpp:1053-1057 | a child's appended chain is cut off and pasted behind the section's, without a copy, and both chains stay well formed |
| TplAppend.AppendSelected | acl/app/wizard/tpllib.cpp:1007-1095 | the loop over the children and the rest add to the section exactly what it renders and empty its children |
| TplAppend.AppendSection | acl/app/wizard/tpllib.cpp:1007-1095 | appended content equals the old content followed by the rendering, direct children start afresh, nothing else changes; without a selection nothing happens and the code says so |
| TplRunLaws.AppendShows | acl/app/wizard/tpllib.cpp:1007-1169 | the parent then renders the section's content right behind what was appended to it before, and is otherwise unchanged |
| TplFields.FindField | acl/app/wizard/tpllib.cpp:192-220 | the bucket search finds the first field filed under the hash of the name whose own name begins with it, in order of creation, or none if there is none |
| TplSelection.FindSection | acl/app/wizard/tpllib.cpp:241-263 | the same for sections |
| TplSelection.SelectFinds | acl/app/wizard/tpllib.cpp:241-263 | and the section a name selects is the child at that place |
| TplFields.SetFieldIn | acl/app/wizard/tpllib.cpp:696-708 | the cell that answers takes the value, no other field of any section changes |
| TplSelection.SelectSection | acl/app/wizard/tpllib.cpp:885-895 | selecting moves to the child that answers, and every `tpl` pointer leads where the path says |
| TplSelection.DeselectSection | acl/app/wizard/tpllib.cpp:897-906 | deselecting moves up one section, and fails exactly when none is selected |
| TplSelection.LinkedDown | acl/app/wizard/tpllib.cpp:885-895 | pushing a child on the selected path repairs all pointers: the root's to the end, inner ones to their successor, others to themselves |
| TplSelection.LinkedUp | acl/app/wizard/tpllib.cpp:897-906 | and so does popping one |
| TplRunLaws.SelectAndBack | acl/app/wizard/tpllib.cpp:885-906 | select then deselect on the heap puts every `tpl` pointer of every section back |
| TplRunLaws.PointersBack | acl/app/wizard/tpllib.cpp:885-906 | the selected path determines every `tpl` pointer |
| TplRunLaws.StackKept | acl/app/wizard/tpllib.cpp:885-906 | over any run that does not pop below a level, the selection up to that level stays |
| TplRunLaws.SelectDeselect | acl/app/wizard/tpllib.cpp:885-906 | deselect undoes a successful select |
| TplRunLaws.CodeTells | acl/app/wizard/lib_tpl.h:185-192 | what came of an operation, by the numbers of the header, and that one that failed has changed nothing |
| TplSetting.SetField | acl/app/wizard/tpllib.cpp:696-708 | the field is set in the selected section and nowhere else |
| TplSetting.SetFieldGlobal | acl/app/wizard/tpllib.cpp:813-823 | the recursion sets the field in every section that the `tpl` pointers of the tree lead to, and nowhere else |
| TplRunLaws.GlobalReach | acl/app/wizard/tpllib.cpp:813-823 | which sections those are while a section is selected: all but the root and the first section on the way to it |
| TplRunLaws.GlobalEverywhere | acl/app/wizard/tpllib.cpp:813-823 | the field is set everywhere if and only if nothing is selected |
| TplReset.Reset | acl/app/wizard/tpllib.cpp:511-542 | fields are emptied at and below the section, appended content below it, nothing else changes; the nodes given back are those that hang nowhere any more |
| TplRunLaws.ResetForgets | acl/app/wizard/tpllib.cpp:511-542 | after any run and a reset of the root, every section not replaced renders as right after parsing, with empty fields and nothing appended below it |
| TplRelease.Release | acl/app/wizard/tpllib.cpp:411-451 | every node, field cell and section cell at and below a section is given back, each of them once |
| TplRelease.Free | acl/app/wizard/tpllib.cpp:460-464 | freeing gives back everything the template still owns, and then the record; together with what was given back before, that is every node and cell ever made |
| TplRelease.AllBlocks | acl/app/wizard/lib_tpl.h:213-255 | what hangs in a template and what hangs nowhere any more make up everything made for it |
| TplAccount.AddedDrops | acl/app/wizard/tpllib.cpp:957-962 | when a section's appended nodes are replaced, exactly the dropped ones come to hang nowhere |
| TplSetSection.PruneBlocks | acl/app/wizard/tpllib.cpp:920-932 | when a section is cut off, exactly what hung at and below it comes to hang nowhere |
| TplRelease.NodesOnce | acl/app/wizard/lib_tpl.h:213-255 | a node hangs in one section, in one of its two chains, at one place |
| TplRelease.EstateApart | acl/app/wizard/lib_tpl.h:213-255 | no two sections own the same block |
| TplRelease.Init | acl/app/wizard/tpllib.cpp:402-409 | any record becomes blank, selects itself, and has no parent |
| TplSetSection.SameLength | acl/app/wizard/tpllib.cpp:920-934 | a section whose node is overwritten is a single node without child sections, and the node is a text unless the write goes through a null pointer (`NullWrite`) |
| TplRunLaws.NullWriteReached | acl/app/wizard/tpllib.cpp:920-934 | an accepted template on which it does: the empty text over a section that is one field |
| TplSetSection.PutFirst | acl/app/wizard/tpllib.cpp:936-955 | the text comes to the head of the appended chain in the node brought along, in the first node if the lengths agree, or in a new node |
| TplSetSection.ReplaceAdded | acl/app/wizard/tpllib.cpp:936-964 | whichever of these it was, the appended chain becomes that one node with the text, addressed by `added_tail` |
| TplSetSection.Vacate | acl/app/wizard/tpllib.cpp:920-932 | the section's content and descendants go, its record stays as a blank child |
| TplSetSection.SetSectionEx | acl/app/wizard/tpllib.cpp:910-970 | the section becomes the text, with the text appended once, also when its node is overwritten in place and when the appended node is brought along; the selection stays, and the blocks given back are those that hang nowhere any more |
| TplSetSection.SetSection | acl/app/wizard/tpllib.cpp:972-975 | the same with no node brought along |
| TplSetSection.SetSectionFromFile | acl/app/wizard/tpllib.cpp:977-1004 | the same with the file's content in the node, and the codes for a file that is missing or cut short, which change nothing; a node that finds no place is given back |
| TplCopy.AdjustSelection | acl/app/wizard/tpllib.cpp:547-571 | the search through both trees at once finds the copy of the section the source's pointer leads to, if it lies ahead |
| TplCopy.CopyFieldStep | acl/app/wizard/tpllib.cpp:588-606 | copying a field node finds or makes its cell at the same place of the table, with the same value |
| TplCopy.CopySection | acl/app/wizard/tpllib.cpp:582-652 | one turn of the loop: nodes up to the child, the child with its appended chain as one node, and what is in it |
| TplCopy.Copy | acl/app/wizard/tpllib.cpp:575-693 | the copy stands for the same sections with the same selection, whatever the source, and the source is untouched |
| TplLifecycle.CopyTemplate | acl/app/wizard/lib_tpl.h:57-61 | a copy into a new template shares no object with the source and is a well-formed template with the same selection, in which every block made for it hangs |
| TplLifecycle.CopyDocSame | acl/app/wizard/tpllib.cpp:575-693 | copy and source stand for the same document if and only if nothing is appended to the root |
| TplRunLaws.RootPlain | acl/app/wizard/tpllib.cpp:1007-1095 | no run ever appends anything to the root |
| TplLifecycle.RunBoth | acl/app/wizard/tpllib.cpp:575-693 | a copy and its source, taken through any same operations, return the same codes, stand for the same document, and share nothing |
| TplLifecycle.FromString | acl/app/wizard/tpllib.cpp:505-508 | a text is accepted as its pieces say, and the template then stands for them with nothing selected |
| TplLifecycle.LoadText | acl/app/wizard/tpllib.cpp:491-501 | a text in error leaves the template as new |
| TplLifecycle.Output | acl/app/wizard/tpllib.cpp:1098-1169 | in any well-formed template, at any section, the measured length and the copied content are those of its rendering |
| TplRun.Perform | acl/app/wizard/tpllib.cpp:511-1095 | each operation on the heap does what the functional section tree does, with the same code |
| TplRun.Run | acl/app/wizard/tpllib.cpp:511-1095 | so does every sequence of operations, with all invariants kept; throughout, the blocks given back are exactly those made that hang nowhere, none of them twice |
| TplLifecycle.WholeLife | acl/app/wizard/tpllib.cpp:402-1095 | a template built from a text, taken through any operations and freed gives back every node and cell made for it, and its record, each once |
| TplDecimal.IntReadsBack | acl/app/wizard/tpllib.cpp:58-78 | the text of every int, the least one included, reads back to the int |
| TplDecimal.NoLeadingZero | acl/app/wizard/tpllib.cpp:58-78 | the numeral is canonical |
| TplDecimal.TenDigits | acl/app/wizard/tpllib.cpp:61 | the ten-byte digit buffer is large enough for any int |
| TplDecimal.ReverseDigits | acl/app/wizard/tpllib.cpp:68-73 | the division loop, with C's truncating operators, leaves the numeral's digits reversed and never leaves the buffer |
| TplDecimal.IntToString | acl/app/wizard/tpllib.cpp:58-78 | the bytes written are the sign and the numeral, cut to the room there is, then a terminator |
| TplDecimal.UnsignedWritten | acl/app/wizard/tpllib.cpp:752-765 | through the cast to int the unsigned setter writes the right numeral if and only if the value is at most 2 to the power 31 |
| TplNumbers.SetFieldInt | acl/app/wizard/tpllib.cpp:739-750 | the field takes a numeral that reads back to the value |
| TplNumbers.SetFieldUint | acl/app/wizard/tpllib.cpp:752-765 | the field takes the right numeral if and only if the value is at most 2 to the power 31 |
| TplNumbers.HttpResponse | acl/app/wizard/tpllib.cpp:1223-1258 | the response fits its buffer, and a client that reads up to the first empty line finds there, behind the status line and the type, a Content-Length (section 8.6 of RFC 9110) that is the number of bytes that follow, and these are the rendering |
| TplNumbers.ReadsBack | acl/app/wizard/lib_tpl.h:197-203 | the header's first empty line is the one in front of the body, whatever the length and the body |
| ChatRooms.RoomManager.Enter | ChatServerAcl/RoomManager.cpp:8-19 | the region of entering: a room with two members turns the session away and its connection is told so, otherwise the entry is made and nothing is written; the mutex is released on both paths |
| ChatRooms.RoomManager.Leave | ChatServerAcl/RoomManager.cpp:25-33 | the region of leaving: the entry goes, and with the last one the room |
| ChatRooms.RoomManager.TwoUsers | ChatServerAcl/RoomManager.cpp:40-64 | a walk in any order fills the two slots with different members |
| ChatRooms.RoomManager.Broadcast | ChatServerAcl/RoomManager.cpp:93-110 | in whatever order the members are visited, each connection gets one copy for each member on it, and no other connection anything |
| ChatRooms.EnteredOk | ChatServerAcl/RoomManager.cpp:8-18 | entering keeps every room at one or two members |
| ChatRooms.LeftOk | ChatServerAcl/RoomManager.cpp:25-33 | so does leaving |
| ChatRooms.ListNamesMembers | ChatServerAcl/RoomManager.cpp:48-64 | the two slots name every member |
| ChatProtocol.EveryRun | ChatServerAcl/RoomManager.cpp:8-110 | in every interleaving: rooms have one or two members, each entry is for a user its connection has logged in as (`WhoAndWhere` says when that is so), every user list names exactly the members at its snapshot (each name cut to 31 bytes), and the room packets in every connection's stream, its own replies left aside, are the projection of one log of broadcasts |
| ChatHistory.WhoAndWhere | ChatServerAcl/tcpCoroutine.cpp:54-68 | in every run: a connection has logged in as a user if and only if a login as that user succeeded, the session's user is that of its last login that did, and its room the one it named last |
| ChatHistory.EntriesEarned | ChatServerAcl/tcpCoroutine.cpp:48-74 | in every run: before an entry was made its connection had logged in under that name, with success, and then asked for that room, and the room had less than two members |
| ChatHistory.BroadcastsTraced | ChatServerAcl/tcpCoroutine.cpp:65-92 | in every run: each broadcast goes to the members its room has at that step, and is what somebody said who had that name and was in that room, or word of somebody coming or going, or a list of the members; names cut to 31 bytes, texts to 255 |
| ChatHistory.RepliesTraced | ChatServerAcl/tcpCoroutine.cpp:54-62 | in every run: the replies on a connection are, in order, how each of its logins went and that a room with two members was full |
| ChatHistory.TurnComes | ChatServerAcl/RoomManager.cpp:8-110 | a session that has something to do can do it, whatever the others do first |
| ChatHistory.Speaks | ChatServerAcl/tcpCoroutine.cpp:75-83 | what a session says is broadcast in its room under its name, whatever the others do in between |
| ChatHistory.Enters | ChatServerAcl/RoomManager.cpp:8-19 | asking for a room with two members changes no room; otherwise the entry is made, and no other entry changes |
| ChatHistory.EnterAnnounced | ChatServerAcl/RoomManager.cpp:21-23 | then the room gets the list of its members, and after it word of who has come |
| ChatHistory.LeaveAnnounced | ChatServerAcl/RoomManager.cpp:26-39 | on closing, the room gets word of who has gone, then, if anybody is left, the list of its members, and the session ends |
| ChatProtocol.SameOrder | ChatServerAcl/RoomManager.cpp:93-110 | of two broadcasts, every connection that got both got the earlier one first |
| ChatProtocol.NoStaleEntries | ChatServerAcl/tcpCoroutine.cpp:36-93 | if sessions keep one identity after entering and name one room other than -1, no entry refers to a deleted connection, and a broadcast reaches each connection at most once |
| ChatProtocol.LeavingRemoves | ChatServerAcl/tcpCoroutine.cpp:89-92 | which entry a closing session takes out of the rooms, whatever other sessions do before its turn comes: that of its last room and name, if the room is not -1 and the name not empty, and no other |
| ChatProtocol.StaleEntry | ChatServerAcl/tcpCoroutine.cpp:89-93 | a session whose last room was -1 leaves its entries behind with its connection deleted |
| ChatProtocol.StaleRun | ChatServerAcl/tcpCoroutine.cpp:36-93 | a run from the start that ends so: a user logs in, enters room -1 and closes, and the entry outlives the connection |
| Trim.SkipTrailingSpace | acl/include/mysql/m_string.h:263-287 | for every string, address and size of int the fast search stops where the plain loop does, reading only inside the string and whole words only at aligned addresses |
| Trim.SkipBytes | acl/include/mysql/m_string.h:284-286 | the plain loop stops behind the last byte that is no space |
| Trim.TrimmedUnique | acl/include/mysql/m_string.h:263-287 | that place is the only one with no space before it and only spaces behind it |
| Trim.SpaceWord | acl/include/mysql/m_string.h:220-224 | a word equals the constant for spaces if and only if each of its bytes is a space |
| Trim.SpaceIntValues | acl/include/mysql/m_string.h:220-224 | the constants for words of four and of eight bytes are those of the header |
| Charset.MasksAgree | acl/app/iconv/charset.cpp:9-26 | on every byte the masks of the C code decide as the comparisons of the model do |
| Charset.WordFind | acl/app/iconv/charset.cpp:28-54 | on a table in the order of its bytes the binary search finds a word if and only if its three bytes are an entry |
| Charset.CodeOrder | acl/app/iconv/charset.cpp:34-43 | the numbers compared are equal exactly for equal bytes, and in the order of the bytes otherwise |
| Charset.WordCount | acl/app/iconv/charset.cpp:56-74 | on arbitrary bytes the scan ends, stays inside, and three times the count is at most the length |
| Charset.CountExact | acl/app/iconv/charset.cpp:9-74 | on valid UTF-8 (sections 3 and 4 of RFC 3629) the scan counts exactly the characters whose bytes are an entry of the table |
| Charset.ValidCount | acl/app/iconv/charset.cpp:56-74 | so on valid UTF-8 and a table in order the program's answer is the number of places at which a character's bytes are an entry of the table |
| Counter.NoLostUpdate | SyncObjectsAcl/fiber_mutex_ex.cpp:9-27 | in every interleaving the counter is the number of writes made |
| Counter.FinalValue | SyncObjectsAcl/fiber_mutex_ex.cpp:30-58 | when all are through, the counter is threads times fibers times iterations (250 for five, five and ten) |
| Counter.Progress | SyncObjectsAcl/fiber_mutex_ex.cpp:9-27 | until then some step is possible |
| Counter.RunsEnd | SyncObjectsAcl/fiber_mutex_ex.cpp:9-58 | no run is longer than four steps for each iteration of each fiber |

## Left out

- TplConstruct.Construct: asks that the names reading reaches are not empty and hold no zero byte, and excludes exactly the texts of `Misread`: those that begin with a section head lacking its first byte, whose first right delimiter is a section tail, with that byte standing before the text. On these the C code would copy a text of length -1.
- TplSetSection.SetSectionEx: asks that an empty text is not given to a section that is one field and nothing else, since the C code then writes through a null pointer; `SameLength` says that this is the only such case.
- TplShown.Page: asks that no field name of a level begins a longer one of its bucket filed before it; where one does, the two share a cell (`SharedCell`), and a page shows one value for both. Which section a name selects is taken from the reference (`CodeTells`).
- TplShown.FillPage: the names set are names of the text; setting another name may change a longer one that begins with it, as `ValueAfter` says for any run.
- TplConstruct.FillSection: a failed child keeps no parent pointer, as in the C code, so after a syntax error the template is well formed but its selection is not claimed to be. The blocks of that child are given back, each once, and leave the account with it.
- ChatProtocol.EveryRun: does not say that the last user list delivered is current, because the mutex is released between the snapshot and its broadcast.
- ChatProtocol.NoStaleEntries: connections are numbered and never reused, while the C++ code identifies them by an address that may be.
- tcpCoroutine.cpp's session loop and fiber_mutex_ex.cpp's fiber loop are transition systems over their atomic steps, not loops, because their steps interleave.
- Buffer sizes behind field values (INITIAL_FIELD_LEN, reallocation) are not modelled, except for the digits of numbers.
- tpl_set_field_fmt, tpl_set_field_double and tpl_set_field_from_file: vsnprintf, printf formatting and file reads. What reading a file yields is a parameter of `SetSectionFromFile`.
- tpl_save_as, tpl_write, tpl_out and the write at the end of tpl_http_write: output of a buffer that is already modelled.
- The content of an HTTP response is assembled from a copy of the content buffer; the C code renders into the response in place.
- Texts of 2 GB and more, where lengths overflow int.
- charset_radar::detact and charset_transfer: they rest on iconv, which is not part of this model.
- The packet codecs of the chat server: packets are abstract, names and messages cut to their array sizes.
- Redis, MySQL, HTTP and echo samples and the user interfaces: thin wrappers.
- The fiber scheduler and the mutex implementation: mutual exclusion is taken as given.
