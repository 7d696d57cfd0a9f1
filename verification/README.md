# Verified models of GlusterFS library cores

This project models parts of `libglusterfs` and of the bundled `argp` parser and proves what their callers
rely on. `dafny verify dfyconfig.toml` checks all of it.

How the C state is represented:

- Memory that the C code links by pointers is a map from addresses to records (inodes, dentries, dict pairs,
  values, call frames, list heads). Freeing an object removes its address, so a use after free would be a use
  of a missing key, and the absence of one is part of every proof.
- Objects whose functions update them in place are classes; `argv`, the fd table, the event registry, byte
  buffers and the bucket heads of a dict are arrays. Lists that `list.h` keeps are sequences in list order;
  `Lists` proves that its pointer operations are the sequence operations used elsewhere.
- A function that runs under a lock is one atomic step. References a caller holds are kept in a ghost account
  (`held`), so that "the count is exact" can be stated.
- `Options`, `Seqs`, `Holdings` and `Buffers` are shared helpers.

The inode cache (`InodeState`, `InodeLemmas`, `DentryLemmas`, `Cascade`, `Resolution`, `Replacement`, `Linking`,
`Outcomes`, `Paths`, `Walking`, `InodeTable`). The invariant `Inv` says: each inode is on exactly one of active,
lru and purge; the sizes are the list lengths; `ref > 0` exactly on active; the reference count is callers'
handles plus child dentries (at least that for number 1); at most one hashed inode per number and one hashed
dentry per (parent number, name), each in its bucket; hashed dentries point at hashed inodes, and every directory is
hashed. Every public operation keeps it (a link exactly if `Fits` holds) and is specified by what names and numbers
resolve to before and after and by which inodes may be gone: `Shed` for those that lose their last reference,
`Pruned` for the evictions.

The option parser (`ArgpOptions`, `ArgvExchange`, `ArgpMachine`, `ArgpReading`, `ArgpMeaning`, `ArgpParser`,
`ArgpTree`, `ArgpLetters`, `ArgpHelp`). `Step` and `Run` are the parser as a state machine, `Parser` the same in place on
an array. `Read` is an independent left-to-right reading that moves nothing; the runs of all three orderings are proved
against it. `ArgpMeaning` says what single steps do in terms of the words on the command line: which words are options,
which value an option gets and where it leaves `next`. User parsers are an oracle that sees the calls so far and the elements from `next` on, decides whether it
understands an argument, and may move `next` forward.

The dict and its wire format (`Hashing`, `DictState`, `DictLemmas`, `Dicts`, `ByteOrder`, `DictWire`), the event
registry (`Events`), the call stack (`CallStacks`), scatter/gather vectors (`Iovecs`), directory entries
(`Dirents`), the fd table (`FdTables`) and the intrusive list (`Lists`).

Where the code departs from what its documentation or naming suggests, the model follows the code:

- Being the root pins nothing: the root stays under every operation if it is referenced or the lru limit is zero
  (`RootSafe`, kept by every public method), and otherwise a run of new, link, lookup and unref drives it out
  (`EvictRoot`, from a new table `LoseRoot`). Releasing number 1 does nothing, so a replaced root is never freed
  (`TakeOver`).
- Linking an inode under the directory it replaces leaves it under an unhashed one (`LinkUnderReplaced`, with the exact
  condition `Fits`), and `inode_path` does not end on an inode linked under itself (`LinkUnderItself`; it ends exactly
  where the way up is not cyclic, `PathEnds`).
- `__noswap16/32/64` swap too, so the wire is in network order only on little-endian hosts (`NetworkOrder4`).
- For ARGP_KEY_ARGS the parser takes all remaining elements whatever the callback asks for, which is what it asked for
  exactly if it took none or all of them itself (`WholeHonoured`, `WholeOverruled`).
- PERMUTE and IN_ORDER make different option calls where an option stands behind an argument that nobody takes by itself
  (`PermuteAgreesInOrder` has the exact condition, `RefusedDisagree` an argv).
- A letter used as key of an OPTION_DOC entry is found by the parser but not by the help code (`DocShadows`,
  with the exact condition in `OwnersAgree`).
- `dict_unserialize` restarts the count of the dict it fills, which is right only for an empty one.
- A listing whose last entry has an empty name loses that entry (`RoundTrip` in `Dirents`).
- Growing the fd table fails for requests from 2^31 on (`ExpandExceeds`) and, from 2^29 slots on, loses slots
  (`CopiesAll`, `UnusedGet`).
- Registering a descriptor a second time lists it twice, under epoll although the call fails (`RegisterEpoll`).
- `iov_subset` with its end before its start gives pieces of wrapped length, unless it gives none (`SubsetGood`).

## Model

| member | source | states |
|---|---|---|
| `InodeTable.InodeCache.constructor` | libglusterfs/src/inode.c:980-1051 | a new table satisfies the whole invariant; the root is hashed as number 1, unreferenced, alone on the lru list |
| `InodeLemmas.RefKeeps` | libglusterfs/src/inode.c:370-380 | one more caller reference keeps the whole invariant, also where it is the first and takes the inode from lru to active |
| `InodeTable.InodeCache.UnrefInode` | libglusterfs/src/inode.c:347-367 | the cascade: from any state that satisfies the invariant it ends in one that does, every change on the way is a fade (references only drop, an inode that keeps one keeps its dentries and hashing, one that loses its last is passivated or retired), number 1 is left alone, and the call terminates because dentries become fewer |
| `InodeTable.InodeCache.PassivateInode` | libglusterfs/src/inode.c:297-318 | an idle inode ends on lru with exactly its hashed dentries, in order, although unsetting the others may recurse; the list being walked is not disturbed |
| `InodeTable.InodeCache.RetireInode` | libglusterfs/src/inode.c:321-344 | a retired inode ends on purge without dentries; its child list is empty throughout, which is the assertion in the code |
| `InodeTable.InodeCache.UnsetDentry` | libglusterfs/src/inode.c:116-137 | removing a dentry releases its parent; invariant kept, inodes the caller pins are out of reach of the cascade, and with a parent that is held besides nothing else changes at all |
| `DentryLemmas.DentryHashKeeps` | libglusterfs/src/inode.c:76-95 | hashing a dentry whose name no other hashed dentry has keeps the whole invariant |
| `Linking.InodeHashKeeps` | libglusterfs/src/inode.c:154-165 | hashing an inode whose number no other hashed inode has keeps the whole invariant and ends its exemption from it |
| `InodeTable.InodeCache.SearchInode` | libglusterfs/src/inode.c:168-186 | finds the inode hashed under a number, or there is none anywhere in the table |
| `InodeTable.InodeCache.SearchDentry` | libglusterfs/src/inode.c:208-227 | finds a hashed dentry with that parent number and name, or there is none anywhere in the table |
| `InodeTable.InodeCache.SearchForInode` | libglusterfs/src/inode.c:189-205 | finds a dentry of the inode with that parent number and name, or it has none |
| `InodeTable.InodeCache.CreateDentry` | libglusterfs/src/inode.c:419-440 | the new dentry is linked first on inode and parent and holds one reference on the parent; invariant kept |
| `InodeTable.InodeCache.CopyDentries` | libglusterfs/src/inode.c:544-567 | every dentry of the old inode has exactly one copy on the new one, hashed where the original was, and the originals end unhashed |
| `InodeTable.InodeCache.AdoptChildren` | libglusterfs/src/inode.c:570-582 | every child dentry has the new parent, in the old order in front, and both reference counts are rebalanced |
| `InodeTable.InodeCache.ReplaceInode` | libglusterfs/src/inode.c:585-605 | dentries, children, lookups, generation and the root pass to the new inode, the old one ends unhashed and empty, bystanders keep theirs |
| `InodeTable.InodeCache.TakeOver` | libglusterfs/src/inode.c:627-633 | with the reference taken and dropped around the replacement: each name that resolved to the old inode resolves to the new one, no other name changes its resolution, the new inode has the dentries of both; the old inode ends on purge if and only if it is not number 1 and no caller holds it, and on active otherwise |
| `InodeTable.InodeCache.LinkInode` | libglusterfs/src/inode.c:608-654 | the number resolves to the inode and the name under the parent resolves to it; all other names resolve as before, read through the replacement if there was one; the mode is set and lookups are kept or taken over; only a replaced inode joins purge; the invariant holds afterwards exactly if the parent fits, and else the inode has a name in an unhashed directory; a name the inode did not have comes first among its names |
| `Linking.FitsAlike` | libglusterfs/src/inode.c:608-654 | the condition on the state before a link (the parent is the inode itself, or hashed under another number, or the name is already there) says whether the parent is usable once the number has been taken |
| `InodeTable.LinkUnderReplaced` | libglusterfs/src/inode.c:608-654 | from a new table: an inode linked as number 1 under the root it replaces breaks the invariant |
| `InodeTable.InodeCache.EvictOldest` | libglusterfs/src/inode.c:952-961 | the head of lru is retired; the rest of lru keeps its order, looked-up inodes that were in use join at its end, and nothing else is purged but inodes that were in use and are not looked up or not hashed |
| `InodeTable.InodeCache.DestroyPurged` | libglusterfs/src/inode.c:963-974 | exactly the purged inodes are freed and the invariant survives |
| `InodeTable.InodeCache.Prune` | libglusterfs/src/inode.c:938-977 | terminates; evicts in passivation order (a queue that only grows at its end, evicted from its front) down to exactly the limit and only if lru was over it; what is gone is what was purged, the evicted front, and inodes in use that only they referred to; never frees a held inode, and changes nothing if there was nothing to do |
| `InodeTable.InodeCache.Ref` | libglusterfs/src/inode.c:402-416 | one more reference on this inode, which is on active and not on lru; no other inode, dentry, name or number changes |
| `InodeTable.InodeCache.New` | libglusterfs/src/inode.c:443-490 | a fresh inode without number, lookups or dentries, with one caller reference, on active, unhashed; nothing else changes |
| `InodeTable.InodeCache.Search` | libglusterfs/src/inode.c:516-541 | map lookup by number or by (parent number, name), with one reference for the caller on the inode found |
| `InodeTable.InodeCache.Unref` | libglusterfs/src/inode.c:383-399 | gives up a caller reference; names and numbers of surviving inodes keep resolving, other callers' references are untouched; an inode that loses its last reference ends at the end of the queue if looked up and hashed and is freed otherwise; what else may go is bounded by the cascade and by the evictions over the limit; a safe root stays safe |
| `InodeTable.InodeCache.Link` | libglusterfs/src/inode.c:657-676 | the linking above followed by pruning, which keeps the new resolution for inodes that stay and does nothing unless an inode was replaced; the table is good afterwards if and only if the parent fits; a safe root stays safe |
| `InodeTable.InodeCache.Lookup` | libglusterfs/src/inode.c:679-699 | one more lookup on the inode that stands for the handle, nothing else |
| `InodeTable.InodeCache.Forget` | libglusterfs/src/inode.c:702-724 | the lookups of the inode that stands for the handle drop by the amount given (to zero for 0), and nothing is evicted |
| `InodeTable.InodeCache.UnlinkInode` | libglusterfs/src/inode.c:727-739 | no dentry of the inode under the name is left, other names keep resolving and inodes keep their fields; nothing else moves if the parent is held |
| `InodeTable.InodeCache.Unlink` | libglusterfs/src/inode.c:742-764 | unlinking through a possibly replaced handle; what goes with it is bounded by the cascade from the directory and by the evictions over the limit; a safe root stays safe |
| `InodeTable.InodeCache.RenameInode` | libglusterfs/src/inode.c:781-793 | the destination name resolves to the inode, the source name no longer does, every other name and number resolves as before, and no inode changes its number, lookups, generation or hashing or leaves its list |
| `InodeTable.InodeCache.Rename` | libglusterfs/src/inode.c:767-799 | the same for a handle that may have been replaced; pruning afterwards does nothing |
| `InodeTable.InodeCache.SearchArbit` | libglusterfs/src/inode.c:802-823 | the first hashed dentry of the inode, or its first dentry if none is hashed |
| `InodeTable.InodeCache.MeasurePath` | libglusterfs/src/inode.c:868-872 | the length computed by the first walk is that of the path |
| `InodeTable.InodeCache.FillPath` | libglusterfs/src/inode.c:902-908 | filling from the back reaches the front of the buffer exactly |
| `InodeTable.InodeCache.Path` | libglusterfs/src/inode.c:852-936 | path and return value, including -ENOENT for an inode without a name and "/" for the root |
| `Walking.NewestPath` | libglusterfs/src/inode.c:802-936 | after a link under a new name the path of an inode is the path of that directory, a slash and that name |
| `Paths.TokensSplit` | libglusterfs/src/inode.c:1069-1083 | the components of two paths joined by a slash are those of the first and then those of the second; the empty path has none |
| `Paths.TokensPlain` | libglusterfs/src/inode.c:1069-1083 | a name without slashes is its own only component |
| `InodeTable.InodeCache.FromPath` | libglusterfs/src/inode.c:1054-1103 | resolves exactly the inode a walk from the root leads to, component by component as `TokensSplit` and `TokensPlain` split the path, with one net reference on it and none on intermediates; fails exactly if no walk exists, and what goes then is bounded as for `Unref` |
| `InodeTable.InodeCache.PathAndBack` | libglusterfs/src/inode.c:852-1103 | the round trip: the path of an inode with a hashed chain of non-empty slash-free names leads back to that inode, with one extra reference on it |
| `InodeTable.InodeCache.EvictRoot` | libglusterfs/src/inode.c:938-1000 | from every good state with a limit in which the root is hashed and not referenced there is a run of new, link, lookup and unref after which it is gone |
| `InodeTable.LoseRoot` | libglusterfs/src/inode.c:980-1051 | such a run from a new table, for every limit but zero |
| `Outcomes.RootShed` | libglusterfs/src/inode.c:347-367 | no cascade takes a root that is referenced or without a limit |
| `Outcomes.RootPruned` | libglusterfs/src/inode.c:938-977 | nor does pruning |
| `Outcomes.RootLinked` | libglusterfs/src/inode.c:608-654 | nor does a link, also one that replaces it |
| `Resolution.FadesShed` | libglusterfs/src/inode.c:347-367 | what a cascade makes idle was in use and is not number 1; it joins lru if looked up and hashed, purge otherwise |
| `Resolution.BindsUnique` | libglusterfs/src/inode.c:208-227 | a name resolves to at most one inode |
| `Resolution.NumberUnique` | libglusterfs/src/inode.c:168-186 | a number resolves to at most one inode |
| `Cascade.FadesTrans` | libglusterfs/src/inode.c:347-367 | cascades compose |
| `Outcomes.SettledAll` | libglusterfs/src/inode.c:938-977 | pruning keeps the resolution of every name and number whose inode stays |
| `Linking.TakenBinds` | libglusterfs/src/inode.c:627-633 | what resolves after a replacement is what resolved before, read through old becoming new, in both directions |
| `Paths.TokensJoin` | libglusterfs/src/inode.c:1054-1103 | splitting a path at slashes undoes joining slash-free non-empty components |
| `Paths.PathRoundTrip` | libglusterfs/src/inode.c:852-936 | the components of the path of an inode, walked from number 1, end at that inode |
| `Paths.WalkUnique` | libglusterfs/src/inode.c:1054-1103 | a walk ends at one inode at most |
| `Paths.PathEnds` | libglusterfs/src/inode.c:868-872 | the walk up comes to an end if and only if it does not come back to an inode |
| `InodeTable.LinkUnderItself` | libglusterfs/src/inode.c:642-654 | from a new table: an inode linked under itself has no end to its way up |
| `ArgvExchange.Exchange` | argp-standalone/argp-parse.c:812-867 | in-place rotation for all block lengths: [first, last) and [last, next) swap places, each in its own order, everything else untouched |
| `ArgpOptions.FindShort` | argp-standalone/argp-parse.c:318-338 | the first option in group order with the key, or none has it |
| `ArgpOptions.MatchMeaning` | argp-standalone/argp-parse.c:349-372 | exact match iff the part before '=' is the name, partial iff it is a proper prefix of it |
| `ArgpOptions.FindLongMeaning` | argp-standalone/argp-parse.c:374-418 | the first exact match, or else the only partial one, or else nothing |
| `ArgpMachine.StepProper` | argp-standalone/argp-parse.c:935-1199 | one step keeps first <= last <= next <= argc and comes closer to the end by (args_only unset, argc - next, letters left), for callbacks that look at earlier calls and following elements and move `next` forward as they like |
| `ArgpMachine.Run` | argp-standalone/argp-parse.c:1247-1248 | the loop ends for every argv and every such callback, in a proper state |
| `ArgpMachine.ClampIdle` | argp-standalone/argp-parse.c:938-950 | the corrections at the head of a step do nothing while callbacks do not move backwards |
| `ArgpMachine.WholeHonoured` | argp-standalone/argp-parse.c:781-788 | after ARGP_KEY_ARGS `next` is where the documentation of the key puts it if and only if the callback took none or all of the elements |
| `ArgpMachine.WholeOverruled` | argp-standalone/argp-parse.c:781-788 | two arguments of which the callback takes the first and loses the second |
| `ArgpReading.PermuteRun` | argp-standalone/argp-parse.c:935-1199 | every PERMUTE run ends with argv as options, "--" if present, non-options, and with the calls of a left-to-right reading in that order, followed by those for its non-options up to the first that nobody takes; with a fault it makes exactly the option calls before it |
| `ArgpReading.ReadStable` | argp-standalone/argp-parse.c:935-1199 | the reading is a stable partition: argv is its options (with "--") and its non-options shuffled, each in its own order |
| `ArgpReading.StraightRun` | argp-standalone/argp-parse.c:1058-1090 | IN_ORDER and REQUIRE_ORDER runs leave argv alone, make the calls of a left-to-right pass and end where it does; with required order everything from the first non-option on is an argument |
| `ArgpReading.ArgsRun` | argp-standalone/argp-parse.c:1016-1025 | once only arguments are left, each goes to the first group that understands it, by itself or with all the rest, from where the last callback left `next`, up to the first that nobody takes |
| `ArgpReading.PermuteAgreesInOrder` | argp-standalone/argp-parse.c:935-1199 | for callbacks of options and of arguments that do not depend on each other, a PERMUTE and an IN_ORDER run end alike with the same option calls and argument calls, as subsequences, if and only if no option stands behind the first argument that nobody takes by itself; without a fault the argument calls agree in any case |
| `ArgpReading.EachQuiet` | argp-standalone/argp-parse.c:935-1199 | the condition holds of every argv if every argument is taken by itself |
| `ArgpReading.RefusedDisagree` | argp-standalone/argp-parse.c:935-1199 | an argv and callbacks for which the two orders disagree |
| `ArgpMeaning.ClassifyMeaning` | argp-standalone/argp-parse.c:876-929 | what each kind of word looks like, in both directions: "-" and words without a dash are arguments, "--" is the quote, one dash makes a long option only under ARGP_LONG_ONLY and unless it is one letter that is a short option |
| `ArgpMeaning.ValueMeaning` | argp-standalone/argp-parse.c:1136-1138 | the value of a long option is the text behind its first '=' |
| `ArgpMeaning.NamesMatch` | argp-standalone/argp-parse.c:349-372 | an option matches exactly if its name is the text before the '=', and partially if that is a proper prefix of its name |
| `ArgpMeaning.OfferMeaning` | argp-standalone/argp-parse.c:755-801 | the taker of an argument is the first group that understands it by itself or with all the rest, and every group before it understands neither |
| `ArgpMeaning.ArgumentStep` | argp-standalone/argp-parse.c:1016-1025 | the call for an argument, and where the callback leaves `next`; all the rest goes with ARGP_KEY_ARGS; nothing changes if nobody takes it |
| `ArgpMeaning.ShortStep` | argp-standalone/argp-parse.c:952-1012 | an option without argument is called without a value and the cluster goes on; the rest of the cluster is the argument; an optional one that is not attached is absent; a mandatory one is the element behind the cluster, which is passed; each fault, without a call |
| `ArgpMeaning.LongStep` | argp-standalone/argp-parse.c:1115-1189 | the same for a long option: the text behind '=', nothing, or the element behind the option; a value for an option that takes none is a fault |
| `ArgpMeaning.ArgumentRead` | argp-standalone/argp-parse.c:983-1012 | the element behind an option that needs it is its value, stands with the options of the reading, and is read no further |
| `ArgpMeaning.ArgumentRun` | argp-standalone/argp-parse.c:935-1199 | a run of any ordering that starts at such an option calls it first, with that element, and a PERMUTE run leaves both in place |
| `ArgpMeaning.WordStep` | argp-standalone/argp-parse.c:1058-1090 | a word that is no option: offered in place for IN_ORDER, left until only arguments are left for REQUIRE_ORDER, stepped over without a call for PERMUTE |
| `ArgpMeaning.RunOptionsFirst` | argp-standalone/argp-parse.c:935-1199 | a PERMUTE or REQUIRE_ORDER run makes all calls for options before those for arguments |
| `ArgpMeaning.PlainRead` | argp-standalone/argp-parse.c:1058-1113 | words without a dash are the non-options of a reading, in order, and so is everything behind a "--" |
| `ArgpParser.Parser.ParseArg` | argp-standalone/argp-parse.c:755-801 | the loop over groups finds the first that takes the argument by itself or with all the rest |
| `ArgpParser.Parser.ParseNext` | argp-standalone/argp-parse.c:935-1199 | the in-place step on the array is the step of the machine, whose meaning in terms of words and values is `ShortStep`, `LongStep`, `ArgumentStep` and `PermuteRun`; the three assertions of the code hold in it |
| `ArgpParser.Parser.Parse` | argp-standalone/argp-parse.c:1247-1248 | the in-place loop is the run of the machine |
| `ArgpParser.ParsePermuting` | argp-standalone/argp-parse.c:1207-1253 | argv itself ends stably partitioned, with the calls of the reading and the arguments nobody takes left over |
| `ArgpParser.ArgpParse` | argp-standalone/argp-parse.c:1207-1253 | from the tree of parsers to the run over its converted tables, whose entries belong to the argps as `TableMeaning` says |
| `ArgpTree.Tables.Convert` | argp-standalone/argp-parse.c:436-488 | fills groups in pre-order with parents and indices, records every short key and hands out child inputs |
| `ArgpTree.ConvertedOptions` | argp-standalone/argp-parse.c:436-488 | the lookups see the options of the tree in pre-order; which argp each belongs to is in `TableMeaning` |
| `ArgpTree.PlacesExact` | argp-standalone/argp-parse.c:436-488 | exactly the argps with options or a parsing function get a group |
| `ArgpTree.PlacesOrdered` | argp-standalone/argp-parse.c:436-488 | the groups stand in pre-order of the tree, each argp once |
| `ArgpTree.GroupsPlaced` | argp-standalone/argp-parse.c:436-488 | group k has the options and the parsing function of the argp at the k-th such place; its index is the last step of the place and its parent the group of the argp one step up, if that has one |
| `ArgpTree.EntryGroups` | argp-standalone/argp-parse.c:318-338 | every entry belongs to a group, and the entries of a group are, in order, exactly the options of that group |
| `ArgpTree.TableMeaning` | argp-standalone/argp-parse.c:318-338 | for every tree: entries stand in the order of their groups, all below the number of groups, and those of group g are the options of the g-th argp in pre-order |
| `ArgpTree.InputsMeaning` | argp-standalone/argp-parse.c:525-548 | one child input is allocated for every argp but the root, and one handed out for every child of an argp with a group |
| `ArgpTree.ConvertedSize` | argp-standalone/argp-parse.c:525-548 | the groups fill their allocation exactly |
| `ArgpTree.InputsFit` | argp-standalone/argp-parse.c:525-548 | child inputs stay within their allocation |
| `ArgpTree.ParentsFirst` | argp-standalone/argp-parse.c:436-488 | a group's parent stands before it |
| `ArgpTree.ShortKeysMeaning` | argp-standalone/argp-parse.c:448-453 | a key is recorded exactly when some short option has it |
| `ArgpHelp.FindChar` | argp-standalone/argp-help.c:347-357 | true iff the character occurs before the end |
| `ArgpLetters.LettersDistinct` | argp-standalone/argp-help.c:489-499 | the packed letters are distinct |
| `ArgpLetters.LettersMeaning` | argp-standalone/argp-help.c:489-499 | a letter is packed exactly when some short option has it |
| `ArgpLetters.CursorLetter` | argp-standalone/argp-help.c:562-571 | the letter under the cursor is an option's own exactly when the option is the first short one with that key, also at entry boundaries |
| `ArgpHelp.PackEntry` | argp-standalone/argp-help.c:489-497 | packs one option with its aliases |
| `ArgpHelp.Hol.constructor` | argp-standalone/argp-help.c:437-503 | the entries list the options in order, each an option with its aliases, with the cursor where the earlier letters end |
| `ArgpHelp.Hol.Append` | argp-standalone/argp-help.c:834-919 | the appended list is as if made from all options at once: letters it shadows are left out, cursors are right |
| `ArgpHelp.ArgpHol` | argp-standalone/argp-help.c:1365-1384 | the list for a tree holds all its options in pre-order, with the same invariant |
| `ArgpHelp.ShortIterate` | argp-standalone/argp-help.c:551-574 | the walk over an entry yields exactly its owned, visible letters in order, each with the option it is about |
| `ArgpHelp.OwnedPlaces` | argp-standalone/argp-help.c:551-574 | the calls are for the options of the entry at an increasing list of places: exactly those that own their letter and are not hidden |
| `ArgpHelp.OwnersAgree` | argp-standalone/argp-help.c:437-503 | help and parser name the same owner of a printable letter if and only if the first option with that key is not documentation only |
| `ArgpHelp.DocShadows` | argp-standalone/argp-parse.c:318-338 | a tree where a documentation entry makes the two disagree |
| `Hashing.HashIsLength` | libglusterfs/src/hashfn.c:39-50 | the hash of a NUL-terminated key is its length, or 1 for a key of at most one byte |
| `Hashing.BucketsAgree` | libglusterfs/src/dict.c:185-222 | the signed remainder of set and the unsigned one of lookup are the same bucket |
| `Dicts.Dict.constructor` | libglusterfs/src/dict.c:65-88 | an empty dict with its invariant |
| `Dicts.Dict.DataRef` | libglusterfs/src/dict.c:456-472 | one more reference, held outside |
| `Dicts.Dict.DataUnref` | libglusterfs/src/dict.c:434-454 | one fewer; the value is destroyed by its last reference and by no other |
| `Dicts.Dict.Lookup` | libglusterfs/src/dict.c:185-203 | the pair with the key, or no pair anywhere has it |
| `Dicts.Dict.Get` | libglusterfs/src/dict.c:289-311 | finite-map lookup |
| `Dicts.Dict.StoreValue` | libglusterfs/src/dict.c:225-233 | a known key keeps its place and takes the value; setting the same value again leaves it alive with an unchanged count |
| `Dicts.Dict.AddPair` | libglusterfs/src/dict.c:234-264 | a new pair is in front of its bucket and of the list, with both chains, back links, count and references right |
| `Dicts.Dict.Set` | libglusterfs/src/dict.c:206-286 | finite-map update, -1 for a missing value, a generated key for a missing key; references outside and bytes of values untouched |
| `Dicts.Dict.Del` | libglusterfs/src/dict.c:313-359 | finite-map removal from bucket and list; a missing key changes nothing |
| `Dicts.Dict.Destroy` | libglusterfs/src/dict.c:361-392 | every pair gives up its reference: what remains is exactly what is referenced outside, with those counts |
| `DictState.FindPut` | libglusterfs/src/dict.c:206-264 | after a set the key answers with the new value and every other key as before |
| `DictState.FindDropped` | libglusterfs/src/dict.c:313-359 | after a delete the key is gone and every other key answers as before |
| `DictState.KeysOncePut` | libglusterfs/src/dict.c:206-264 | keys stay distinct and the number grows only for a new key |
| `DictState.KeysOnceDropped` | libglusterfs/src/dict.c:313-359 | keys stay distinct and the number drops only for a known key |
| `DictLemmas.InsertAll` | libglusterfs/src/dict.c:234-264 | linking in a pair keeps list, buckets, keys and reference counts, and is the map update |
| `DictLemmas.DeleteAll` | libglusterfs/src/dict.c:329-354 | unlinking a pair at any place of bucket and list keeps all four, and is the map removal |
| `DictLemmas.UnrefRefs` | libglusterfs/src/dict.c:434-454 | a value without references is in no pair |
| `DictWire.SerializedLength` | libglusterfs/src/dict.c:1964-2039 | the number of bytes serialize writes, or -EINVAL if the count does not match the list |
| `DictWire.Serialize` | libglusterfs/src/dict.c:2052-2128 | writes the wire form of the announced pairs in list order and nothing behind it; -1 if there are fewer |
| `DictWire.Unserialize` | libglusterfs/src/dict.c:2142-2242 | sets the parsed items in order, also those before a fault; the count is right afterwards if and only if the dict was empty |
| `DictWire.UnwireWire` | libglusterfs/src/dict.c:2052-2242 | parsing what was printed gives the items back |
| `DictWire.CutShort` | libglusterfs/src/dict.c:2180-2222 | a wire form cut short anywhere is refused as undersized, with exactly the items parsed that are whole |
| `DictWire.ItemLengths` | libglusterfs/src/dict.c:2095-2107 | the length of the key comes first, then the length of the value |
| `DictWire.RoundTrips` | libglusterfs/src/dict.c:2052-2242 | one round trip gives the same map in reverse order, a second one the original bytes |
| `DictWire.Resend` | libglusterfs/src/dict.c:1964-2242 | the first round trip carried out on dicts: the wire form goes out and a fresh dict holds the same map in reverse order |
| `DictWire.ResendTwice` | libglusterfs/src/dict.c:1964-2242 | both round trips carried out on dicts: the dict at the end holds the same pairs in the same order, and the same bytes go out again |
| `ByteOrder.Swap4Twice` | libglusterfs/src/byte-order.h:41-43 | the 32-bit swap undoes itself |
| `ByteOrder.Swap8Twice` | libglusterfs/src/byte-order.h:41-43 | the 64-bit swap undoes itself |
| `ByteOrder.SwapTurns4` | libglusterfs/src/byte-order.h:41-43 | a swap turns the bytes of a word around |
| `ByteOrder.SwapTurns8` | libglusterfs/src/byte-order.h:41-43 | the same for 64 bits |
| `ByteOrder.GetPut4` | libglusterfs/src/byte-order.h:88-147 | what a host writes it reads back, whichever way it stores words |
| `ByteOrder.GetPut8` | libglusterfs/src/byte-order.h:88-147 | the same for 64 bits |
| `ByteOrder.NetworkOrder4` | libglusterfs/src/byte-order.h:67-85 | the wire is in network order if and only if the host is little-endian |
| `Events.EventPool.GetIndex` | libglusterfs/src/event.c:67-91 | an index of the descriptor, whatever the hint, or -1 iff it is not registered |
| `Events.EventPool.RegisterPoll` | libglusterfs/src/event.c:175-243 | the registration is appended, also when the registry grows: urgent data always, input and output exactly where 1 asks for them, with the handler and data given; a new descriptor gains it and all others keep theirs; a descriptor registered before goes on answering as before and is then listed twice; the change is flagged |
| `Events.EventPool.UnregisterPoll` | libglusterfs/src/event.c:246-275 | swap-delete removes this registration and keeps every other; the change is flagged exactly if there was one |
| `Events.EventPool.SelectOnPoll` | libglusterfs/src/event.c:278-338 | input is asked for afterwards iff the argument is 1, or not 0 and it was before, output likewise; urgent data, handler, data and every other descriptor are as before; the change is flagged exactly for a registered descriptor and arguments that add up to more than -2 |
| `Events.EventPool.PollResize` | libglusterfs/src/event.c:381-418 | the poll buffer lists the registry as it is, since a registry that was never changed is empty; without a change the buffer is left alone |
| `Events.EventPool.RegisterEpoll` | libglusterfs/src/event.c:518-612 | the new registration has the fields as for poll; it fails exactly for a descriptor registered before, and the kernel set mirrors the registry afterwards exactly if it did not fail |
| `Events.EventPool.UnregisterEpoll` | libglusterfs/src/event.c:615-687 | as for poll; the moved descriptor has its new index in the kernel and the mirror is exact again |
| `Events.EventPool.SelectOnEpoll` | libglusterfs/src/event.c:690-766 | the interest changes as for poll and nothing else does, and the kernel has the new interest |
| `Events.EventPool.Dispatch` | libglusterfs/src/event.c:769-809 | with an arbitrarily stale index the handler called is the one registered for the descriptor now, or none |
| `Events.SwapDelete` | libglusterfs/src/event.c:246-275 | moving the last registration over the deleted one keeps every other answer |
| `Events.MirrorSwap` | libglusterfs/src/event.c:642-682 | one deletion and one change of index make the kernel set exact again |
| `CallStacks.Stack.WindFrame` | libglusterfs/src/stack.h:142-163 | a new frame behind the root, its caller waiting for one call more, invariant kept |
| `CallStacks.Stack.UnwindFrame` | libglusterfs/src/stack.h:192-198 | the parent, which was waiting, waits for one call fewer, and its callback is due with the frame, cookie and translator recorded and the parameters given |
| `CallStacks.Stack.Unwind` | libglusterfs/src/stack.h:192-198 | a reply unwound from any place of a chain of default translators runs exactly the callbacks on the way up, each once, with the parameters it was unwound with |
| `CallStacks.Stack.DefaultCbk` | libglusterfs/src/defaults.c:36-53 | the default callback unwinds its own frame with the parameters it got |
| `CallStacks.RunOk` | libglusterfs/src/stack.h:142-198 | over every interleaving of calls and single returns: counts equal outstanding calls, the list holds each frame once, parents are older frames |
| `CallStacks.LeadsToRoot` | libglusterfs/src/stack.h:142-163 | parent links lead from every frame to the root |
| `CallStacks.Stack.FrameDestroy` | libglusterfs/src/stack.h:102-113 | unlinks and frees any one frame but the root's, leaving a proper list of the others in order, their other fields untouched |
| `CallStacks.Stack.FreeFrames` | libglusterfs/src/stack.h:131-133 | frees each frame but the root's once, newest first |
| `CallStacks.Stack.CallThrough` | libglusterfs/src/defaults.c:36-68 | through a chain of any length of default translators: exactly one callback runs per translator, all get the parameters of the bottom reply as given, the last one is the caller's own in the caller's frame, and every count is as before |
| `CallStacks.CallPool.CreateFrame` | libglusterfs/src/stack.h:236-263 | a stack with the root frame alone, which nobody called, waits for nothing and is the given translator's; it is first on the ring and counted |
| `CallStacks.CallPool.CopyFrame` | libglusterfs/src/stack.h:201-234 | the copy has a root frame alone, without caller or outstanding calls and of the translator of the copied frame; it stands next to the original on the ring, with its identifiers, and is counted |
| `CallStacks.CallPool.StackDestroy` | libglusterfs/src/stack.h:116-135 | the stack leaves the ring, the count is the number of stacks on it, each frame is freed once |
| `Iovecs.IovLength` | libglusterfs/src/common-utils.h:135-145 | the sum of the lengths |
| `Iovecs.IovSubset` | libglusterfs/src/common-utils.h:169-213 | fills exactly the pieces of the slice, for any two offsets; counting alone returns the same number |
| `Iovecs.SubsetSlices` | libglusterfs/src/common-utils.h:169-213 | gathering the pieces is slicing what is gathered, clamped to the total, empty boundary pieces included |
| `Iovecs.PiecesCount` | libglusterfs/src/common-utils.h:181-185 | there are as many pieces as vectors that end at or behind the start and begin at or before the end |
| `Iovecs.SubsetGood` | libglusterfs/src/common-utils.h:169-213 | the pieces lie in memory if and only if the end is not before the start or there are none |
| `Iovecs.IovUnload` | libglusterfs/src/common-utils.h:216-226 | the buffer starts with the gathered bytes and is otherwise untouched |
| `Dirents.DirentList.Serialize` | libglusterfs/src/gf-dirent.c:86-112 | the result does not depend on the buffer, which receives exactly the longest prefix of entries that fits |
| `Dirents.FittingLongest` | libglusterfs/src/gf-dirent.c:96-109 | a prefix fits if and only if it is no longer than that one |
| `Dirents.DirentList.Unserialize` | libglusterfs/src/gf-dirent.c:115-157 | appends the parsed entries in order and counts them |
| `Dirents.RoundTrip` | libglusterfs/src/gf-dirent.c:86-157 | a full listing comes back whole if and only if it is empty or its last name is not; otherwise only that entry is lost |
| `FdTables.RoundUp` | libglusterfs/src/fd.c:42-78 | the least power of two not below nr, up to 2^31 |
| `FdTables.ExpandExceeds` | libglusterfs/src/fd.c:92-94 | the new size exceeds the request for requests below 2^31 and wraps to zero above |
| `FdTables.CopiesAll` | libglusterfs/src/fd.c:103-106 | the copy carries over all slots if and only if they are fewer than 2^29 |
| `FdTables.CopyWraps` | libglusterfs/src/fd.c:103-106 | a table of 2^29 slots would lose all of them |
| `FdTables.FdTable.constructor` | libglusterfs/src/fd.c:112-130 | 128 free slots |
| `FdTables.FdTable.Expand` | libglusterfs/src/fd.c:80-110 | more slots than asked for, capacity 128 times a power of two; the slots copied are as before, the others free; the counts are right afterwards if and only if no slot in use was left out of the copy |
| `FdTables.FdTable.UnusedGet` | libglusterfs/src/fd.c:203-241 | the least free slot takes the fd with the caller's reference; no other slot changes, except that growing keeps only what is copied, so that the table is valid afterwards if and only if it did not grow from 2^29 slots or more; EINVAL for no fd |
| `FdTables.FdTable.Put` | libglusterfs/src/fd.c:244-270 | the slot is free, its reference dropped, the last one destroying the fd; a bad number changes nothing |
| `FdTables.FdTable.FdptrGet` | libglusterfs/src/fd.c:273-302 | the fd in the slot with one more reference, or nothing |
| `FdTables.FdTable.Unref` | libglusterfs/src/fd.c:329-451 | the asserted positive count holds; one reference fewer |
| `Lists.Heap.Add` | libglusterfs/src/list.h:35-43 | x comes right behind the head, the ring is otherwise the same, nothing outside it changes |
| `Lists.Heap.AddTail` | libglusterfs/src/list.h:46-54 | x comes last |
| `Lists.Heap.Del` | libglusterfs/src/list.h:57-65 | the rest of the ring, if any, closes up, x is poisoned |
| `Lists.Heap.DelInit` | libglusterfs/src/list.h:68-76 | the rest closes up, x is a ring of its own, also if it already was |
| `Lists.Heap.Move` | libglusterfs/src/list.h:79-84 | x leaves one ring, which closes up, for the front of another |
| `Lists.Heap.MoveWithin` | libglusterfs/src/list.h:79-84 | x goes to the front of its own ring, all others keep their order |
| `Lists.Heap.MoveTail` | libglusterfs/src/list.h:87-92 | x leaves one ring for the end of another |
| `Lists.Heap.SpliceInit` | libglusterfs/src/list.h:102-131 | the elements of one ring stand, in order, behind the head of the other, which keeps its own behind them; the first ring is empty |
| `Lists.Heap.ForEach` | libglusterfs/src/list.h:138-139 | every element once, in order |
| `Lists.RingTurn` | libglusterfs/src/list.h:24-33 | a ring may be read from any of its elements |
| `FdTables.FdTable.Ref` | libglusterfs/src/fd.c:304-327 | one more reference, held by the caller |
| `Lists.Heap.Init` | libglusterfs/src/list.h:30-32 | a ring of one |
| `Lists.Heap.Splice` | libglusterfs/src/list.h:102-110 | the same for a list that is not empty, without emptying it |
| `Lists.EmptyRing` | libglusterfs/src/list.h:95-99 | `next` leads back to the head exactly in a ring of one |

## Left out

- Locks, allocation failure, logging and the order of events between two locked regions.
- Calls into translators: `forget`, `release` and the contexts hung on inodes and fds (`inode_ctx_*`, `fd_ctx_*`).
- Wrap-around of reference, lookup and size counters, and totals that do not fit `int` in `dict_serialized_length`,
  `gf_dirent_serialize`, `gf_dirent_unserialize` and `iov_length`.
- Inode cache: callers are required to pass a non-zero `st_ino`, a parent they hold and a handle whose number is hashed;
  `inode_parent` would only add an easy member.
- InodeTable.InodeCache.Rename: requires both directories to be hashed, so that the link in it fits.
- InodeTable.InodeCache.Path: requires a way up that ends; where there is none (`PathEnds`) the code does not end.
- ArgpMachine.Run: callbacks for options succeed, those for arguments succeed or answer that they do not understand and
  then leave `next` alone; callbacks do not edit argv and do not move `next` backwards or past argc. The INIT, NO_ARGS,
  END, SUCCESS, ERROR and FINI calls, `args_processed`, inputs and messages are not modelled.
- ArgpParser.Parser.ParseNext: on a fault only argv, the calls made and the kind of fault are stated; the cursors,
  which nothing reads afterwards, are not.
- ArgpTree.Tables.Convert: requires an options array wherever there is a parsing function, which the loop over the
  options and the lookups dereference. The size of the short-option string is not compared with its allocation.
- ArgpHelp: clusters, groups, sorting and printing of help.
- Dicts.Dict.Set: keys are shorter than 2^31 bytes; constant values (`is_const`) and the reference count of the dict
  itself are not modelled.
- DictWire.Unserialize: a negative length or a key that is not terminated within the buffer ends the model in
  `Astray`, since the code then follows a cursor outside it. Vector values, values without data and the older
  format are not modelled.
- Dirents.DirentList.Unserialize: a name that is not terminated within the buffer ends the model in `Astray`, since the
  code then reads on behind it.
- ByteOrder: the masks and shifts of the macros are written as quotients, remainders and products.
- Events: `epoll_ctl` fails only for a descriptor that is, or is not, in the set. The dispatch loops around the handlers
  are not modelled.
- CallStacks: STACK_WIND_COOKIE differs only in the cookie; `local` data and the identifiers of a new stack are not
  modelled.
- FdTables.FdTable.Expand: requires a request below 2^31 and a new table that holds what is copied, beyond which the
  code writes outside it.
- FdTables.FdTable.UnusedGet: requires a free slot or fewer than 2^31 - 1 slots; beyond that growing gives an empty
  table (`ExpandExceeds`). `gf_fd_unused_get2`, `gf_fd_fdtable_destroy` and the fd list of an inode are not modelled.
- Iovecs.IovSubset: requires an output array other than the input.
- The timer, the memory pool, call stubs, logging, the protocol headers, the daemons and the translators.
