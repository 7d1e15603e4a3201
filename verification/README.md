# Verified cores of libsolv

libsolv resolves package dependencies and reads package repositories. Behind its loaders sit a handful of
algorithms that take unbounded input and have a clear meaning. This project models them in Dafny, in the imperative
form they have in the library (arrays overwritten in place, a shared queue, tables that grow), and proves what they
are for. `dafny verify dfyconfig.toml` checks everything.

| area | files | main results |
|---|---|---|
| multi-limb arithmetic | `Limbs`, `MpArith`, `MpField` | `mpdomod`, `mppow`, `mprsa` and `mpdsa` are `%`, `^` and the textbook checks for numbers of any length; no 64-bit intermediate overflows |
| curve 25519 arithmetic | `Ed25519`, `ScalarMult`, `Fermat` | canonical products, the addition chain of the inverse, its meaning for a prime modulus, and s1·P1 + s2·P2 in any commutative group |
| rich dependencies | `Containers`, `DepBlocks`, `DepMerge`, `CplxDeps`, `Normalize`, `OrProviders` | normalising to CNF or DNF on one shared queue keeps the meaning of every dependency tree |
| unneeded packages | `SccGraph`, `SccSteps`, `SccPop`, `SccArray`, `SccVisit`, `Scc`, `EdgeLists`, `EdgeBuild`, `EdgeLoss`, `Unneeded` | edges between packages in one flat queue, then a component search with low values and stack in one array: kept iff nothing outside leads to the component |
| cleaning up dependencies | `CleanDeps`, `CleanRemove`, `CleanAddBack`, `Cleanup`, `SupplementChecks` | both loops end; what removed packages drag out goes unless it is pinned, and every removal and pin has a reason; adding back computes a least fixpoint; cleaning up never breaks a need of a kept package that erasing alone leaves intact |
| proofs of decisions | `DecisionSort`, `DecisionProof` | a resolution chain becomes a unit-propagation refutation and stays one when it is sorted into alternating runs of conflicts and installs |
| file conflicts | `Probe`, `HashTables`, `FileLists`, `ConflictPasses`, `FileScan`, `Candidates`, `FetchMap`, `FileExpand`, `FileConflicts` | four passes over hash tables report the naive pairwise conflicts, whatever the hash function, with the exact condition for pairs of directories |
| directory index | `DirPool`, `DirIndex` | the hash index agrees with a linear scan, the child chain with a rebuild, over every sequence of calls |
| rpm database | `AdaptOrder`, `HardLinks` | a permutation applied in place; hard links counted once and sums conserved |
| test case text | `TestcaseText`, `TestcaseWords`, `TestcaseOperators`, `TestcaseFormat`, `TestcaseReread`, `TestcaseDerail`, `TestcaseRoundTrip`, `TestcaseCode` | parsing undoes printing, with the exact condition for every dependency; the format in characters and numbers |
| armor | `Crc24`, `Armor`, `ArmorCode` | `unarmor` undoes `armor` for every packet; single-byte damage is refused |
| apk versions | `ApkVersion`, `ApkOrder` | the comparison is lexicographic on the parsed parts, by fixed ranks and decimal values, and transitive exactly as long as suffixes are known |

`Common` holds the definitions that several of them share.

## How the code is modelled

- 32-bit limbs and 64-bit intermediates are the bounded types `limb` and `wide`; truncating stores and shifts are
  written out. `Num(len, a)` is the number in the low `len` limbs of `a`.
- The growable integer queue is the class `Queue`; bit maps are sets of ids. The zero-terminated lists of the pool
  are offsets into one sequence, as in the library.
- The provider table is a parameter: strictly ascending lists of package ids, the system package being 1. Dependency
  ids are trees (`Dep`), with every relation other than AND, OR, COND, UNLESS and ELSE an opaque leaf.
- Hash functions are parameters. Masks are tables of 2^k slots with the probe of `src/hash.h`.
- Methods are proved against a specification function or predicate, and the properties are proved about those. Where
  such a function only computes, a lemma says what it computes with quantifiers, numbers or literals of its own.
  `VerCmp` and `ClassifyPart` take the version as a string that ends where the C string does.

## What the proofs found

- `mprsa` with modulus 1 and exponent 0 compares against 1 instead of 0 (`RsaIsTextbook`).
- The cap on the quotient estimate in `mpdomod` is never reached (`QuotientFits`).
- `testcase_str2dep(testcase_dep2str(d))` is `d` exactly for the dependencies that are `Readable` and `Clean`
  (`RoundTrip`). Four things keep a dependency from coming back: the operator -1, which the parser takes for none
  (`MinusOneFails`); a name misjudged by the search for "(", either a namespace with a parenthesis in its name or a
  package named "namespace" with any architecture in front of one (`NamespaceParenFails`, `NamespaceAnyExact`); a word
  with ":any" in the wrong place; and an operator right behind a compat version or a relation with negative flags, which
  are printed without parentheses (`TailTaken`). In the last two cases `PrintThenParse` gives the tree that comes back.
- Every version with an unknown suffix makes the apk comparison cyclic (`UnknownSuffixCycle`), all others are ordered.
  The revision test at `src/apk.c:79` reads `evr[1] >= '0' && evr[2] <= '9'`, which looks as if both indices were meant
  to be the same; the model follows the code.
- Two directories with different digests are reported as a conflict only if some other file, no directory, has the same
  hash in a shared directory (`FindFileConflicts`).
- `armor` can be given an end line that `unarmor` never finds: one that begins with white space (`RoundTrip`).
- When the last required node of a package is also the first recommended one, its edge is stored once, with the
  requires, so the second pass of `filter_unneeded` does not see the recommendation, which can keep a package that
  would otherwise be dropped (`SecondPassMisses`, `RecommendLost`).

## Model

| member | source | states |
|---|---|---|
| `MpArith.MpIsLess` | ext/solv_pgpvrfy.c:58-68 | the limb comparison is `<` on the numbers |
| `MpArith.MpIsEqual` | ext/solv_pgpvrfy.c:70-74 | comparing the limbs is comparing the numbers |
| `MpArith.MpSubMod` | ext/solv_pgpvrfy.c:98-109 | subtracts the modulus, wrapping at 2^(32·len) exactly when it is larger; higher limbs stay |
| `MpArith.QuotientFits` | ext/solv_pgpvrfy.c:129-132 | below `mod << 32` the quotient estimate always fits 32 bits, so the "just in case" cap never applies |
| `MpArith.EstimateStep` | ext/solv_pgpvrfy.c:129-144 | an estimate `z` with `z·(mt+1) <= x` never takes more than the window holds, and removes exactly `z·mod` |
| `MpArith.MpSubMul` | ext/solv_pgpvrfy.c:133-142 | one pass of the inner loop subtracts `z·mod`, and the borrow that remains is at most `z`, hence below 2^32 |
| `MpArith.MpReduceTop` | ext/solv_pgpvrfy.c:126-145 | the estimating loop ends with `x < 2·mod[i]` and keeps the residue |
| `MpArith.LastSubtraction` | ext/solv_pgpvrfy.c:146-148 | after the loop a single subtraction is enough and is decided correctly, even though the stored top word may have lost its bit 32 |
| `MpArith.MpDoMod` | ext/solv_pgpvrfy.c:111-149 | for every length and modulus: from a value below `mod << 32` leaves its residue, below the modulus |
| `MpArith.MpMulAddInt` | ext/solv_pgpvrfy.c:151-164 | target becomes the residue of target + src·m; the 64-bit intermediate does not overflow |
| `MpArith.MpShift` | ext/solv_pgpvrfy.c:166-178 | target becomes the residue of target·2^32 |
| `MpArith.MpMulAdd` | ext/solv_pgpvrfy.c:180-199 | target becomes the residue of target + m1·m2, for a second factor of any length |
| `MpArith.MpMulInplace` | ext/solv_pgpvrfy.c:201-208 | in-place modular product, also for squaring, when the factor is the target itself |
| `MpArith.MpPowInt` | ext/solv_pgpvrfy.c:210-221 | from b^E to b^(16·E + e), using the table of the first fifteen powers |
| `MpArith.MpPow` | ext/solv_pgpvrfy.c:223-257 | for every modulus, base below it and exponent of any length, target is exactly b^e mod m (1 for exponent 0) |
| `MpArith.MpRsa` | ext/solv_pgpvrfy.c:376-399 | accepts iff m < n, c < n and m^e mod n is c |
| `MpArith.RsaIsTextbook` | ext/solv_pgpvrfy.c:391-398 | the accepted equation is the textbook one for all inputs except modulus 1 with exponent 0, and there it is not |
| `MpField.MpAdd` | ext/solv_pgpvrfy.c:279-294 | sum modulo m of reduced operands, also in place |
| `MpField.MpSub` | ext/solv_pgpvrfy.c:296-317 | difference modulo m, from a borrow taken out of a wrapped 64-bit difference |
| `MpField.MpDec` | ext/solv_pgpvrfy.c:269-276 | decrement with wrap-around at zero |
| `MpField.MpDsa` | ext/solv_pgpvrfy.c:321-374 | accepts iff the range checks hold and (g^u1 · y^u2 mod p) mod q is r, with w = s^(q-2); `h` may exceed q and any lengths are allowed |
| `Fermat.DsaIsTextbook` | ext/solv_pgpvrfy.c:321-374 | for a prime q that is the textbook check with the inverse of s |
| `Ed25519.Fold512` | ext/solv_ed25519.h:62-67 | folds the high half in with factor 38; the carry left over is at most 39 |
| `Ed25519.Reduce512` | ext/solv_ed25519.h:55-83 | for every 512-bit input the canonical residue modulo 2^255 - 19 |
| `Ed25519.Mul` | ext/solv_ed25519.h:85-104 | for all 256-bit factors the canonical product, target may be a factor |
| `Ed25519.Pow252` | ext/solv_ed25519.h:112-135 | the addition chain ends at a^(2^252 - 4) and also leaves a^11 |
| `Ed25519.Pow252m3` | ext/solv_ed25519.h:137-144 | a^((p - 5) / 8) |
| `Ed25519.Inv` | ext/solv_ed25519.h:146-156 | a^(p - 2), the exponent of the field inverse; section 5.1 of RFC 8032 |
| `Fermat.FieldInverse` | ext/solv_ed25519.h:146-156 | if 2^255 - 19 is prime, that is the inverse of every number it does not divide |
| `Fermat.InverseOf` | ext/solv_ed25519.h:146-156 | for any prime p and a that it does not divide, a^(p - 2) modulo p is the inverse of a |
| `ScalarMult.SetupTable` | ext/solv_ed25519.h:308-321 | tab[4·i + j] is i·p1 + j·p2, in any commutative group |
| `ScalarMult.ScMult2` | ext/solv_ed25519.h:323-342 | s1·p1 + s2·p2 for all pairs of 256-bit scalars, with the skipped leading doublings and the two-bit windows |
| `CplxDeps.IsComplexDepRd` | src/cplxdeps.c:27-42 | true iff the tree holds an AND, COND or UNLESS on its chain of ORs |
| `CplxDeps.ExpandSimpleDeps` | src/cplxdeps.c:44-69 | the queue from `start` on is replaced by its expansion, and the returned split is where the second run now starts |
| `CplxDeps.MergeBlocks` | src/cplxdeps.c:149-164 | appends the ascending union of the two blocks |
| `CplxDeps.HasClash` | src/cplxdeps.c:166-176 | the two cursors find a complementary pair iff there is one |
| `CplxDeps.DistributeDepBlocks` | src/cplxdeps.c:130-189 | both runs are replaced by the product of their blocks without the clashing ones; the return code says whether anything is left |
| `DepMerge.ProductMeaning` | src/cplxdeps.c:130-189 | the product reads as the disjunction of the sides in CNF and their conjunction in DNF, for every choice of packages |
| `CplxDeps.InvertDepBlocks` | src/cplxdeps.c:98-128 | negates all blocks in place, each reversed so that it stays ascending; 0 and 1 are exchanged |
| `DepMerge.InvertMeaning` | src/cplxdeps.c:98-128 | the inverted blocks, read in the dual form, are the negation |
| `Normalize.NormalizePair` | src/cplxdeps.c:193-241 | for both short-cut variants: queue restored with 0 or 1, or blocks that read as the combination of the two sides |
| `Normalize.NormalizeElse` | src/cplxdeps.c:243-289 | the same for `A IF (B ELSE C)` and `A UNLESS (B ELSE C)` |
| `Normalize.NormalizeLeaf` | src/cplxdeps.c:334-363 | the provider list as blocks, including the system package and the empty list, with and without name filter |
| `Normalize.RewrittenMeans` | src/cplxdeps.c:303-332 | the rewriting of COND, UNLESS and their ELSE forms into AND, OR and negation means the same |
| `Normalize.PoolNormalizeComplexDep` | src/cplxdeps.c:366-388 | for every dependency tree and every set of chosen packages: the blocks, ascending and free of complementary pairs, have the truth value of the tree in CNF or DNF, or of its negation when inverted; 0 and 1 mean constant, with the queue restored |
| `OrProviders.AddOrProviders` | src/poolwhatprovides.c:724-764 | the list made for an OR, merged or reused, is the ascending union of the lists of its sides |
| `OrProviders.HoldsIsTruth` | src/cplxdeps.c:303-337 | an OR that is not complex is normalised from its own provider list; with lists made as above, a tree of any depth has the truth value that AND, OR, COND, UNLESS and ELSE give it |
| `OrProviders.NormalTruth` | src/cplxdeps.c:366-388 | hence the normalised blocks have the truth value read off the tree alone |
| `ComponentSearch.Search.Visit` | src/cleandeps.c:146-190 | one visit keeps the invariant of the search with low values and stack in one array; all accesses stay in its 2·(count+1) slots |
| `ComponentSearch.Search.Prune` | src/cleandeps.c:173-178 | an edge into a component kept from an earlier root drops that whole component |
| `ComponentSearch.Search.Complete` | src/cleandeps.c:182-189 | a complete component leaves the stack; it is kept only as the component of the root |
| `SccPop.AboveIsComponent` | src/cleandeps.c:182-188 | when low equals the visiting number, the upper part of the stack is exactly one strongly connected component |
| `SccPop.FinalMeaning` | src/cleandeps.c:146-190 | once every node is finished, a component is kept iff no edge enters it from outside |
| `ComponentSearch.Search.Roots` | src/cleandeps.c:417-435 | after a pass a node has a positive entry iff it is not ignored and its component has no edge entering from a non-ignored node outside it |
| `EdgeLists.InsertEdge` | src/cleandeps.c:369-373 | inserting a supplements edge into the flat queue and moving the later offsets is inserting into one node's list |
| `EdgeLists.OutFlat` | src/cleandeps.c:265-276 | the zero-terminated list at a node's offset is that node's successor list |
| `EdgeBuild.DrawNeeds` | src/cleandeps.c:278-328 | one list after the other in the flat queue, consecutive repeats dropped: its first nodes are exactly those the package's requires draw to, all its nodes exactly those its requires and recommends draw to |
| `EdgeBuild.FirstNodesMembers` | src/cleandeps.c:217-225 | of a block, exactly one node for each installed package of the queue other than the package itself |
| `EdgeBuild.DepDraws` | src/cleandeps.c:207-230 | a dependency draws to the nodes of its installed providers, with `justone` only if there is one provider other than the package; a complex one to the first node of every installed package of any block that has no literal "not p" with p not installed in front of it |
| `EdgeBuild.PairSupplements` | src/cleandeps.c:340-372 | a node is put into the list of exactly the packages, by their first node, that a supplement holding for the installed system looks at; with `justone`, of a supplement that looks at one entry |
| `EdgeBuild.BuildEdges` | src/cleandeps.c:265-378 | the first successors of a node are exactly those its requires draw to; the others are exactly those its recommends draw to and those that supplement it, except that the last required node is left out if it is recommended first; all read off requires, recommends, blocks, providers and supplements |
| `EdgeLoss.SecondPassMisses` | src/cleandeps.c:319-323 | a recommended node is missing in the second pass iff it is the last required one, comes only at the start of the recommended ones, and is no supplement |
| `EdgeLoss.RecommendLost` | src/cleandeps.c:403-450 | two packages for which this decides: both are kept, and with the recommendation in sight one would be dropped |
| `Unneeded.ShiftedOut` | src/cleandeps.c:410-415 | the second pass sees a node's list without its required nodes |
| `Unneeded.TwoSearches` | src/cleandeps.c:403-441 | for any graph with the edges drawn, and any graph of the nodes kept in it with the edges behind the required ones, exactly the nodes kept in the second are kept in the end |
| `Unneeded.SelectedAt` | src/cleandeps.c:445-449 | a kept entry moves to the place that is the number of kept entries before it |
| `Unneeded.FilterUnneeded` | src/cleandeps.c:403-450 | the queue is compacted to the packages kept by both passes, in their old order |
| `EdgeBuild.FilterPackages` | src/cleandeps.c:235-451 | from packages and dependencies over these edges to the filtered queue; queues of fewer than two packages are left alone |
| `CleanRemove.Cleaner.DepPkgCheck` | src/cleandeps.c:45-96 | collects the packages looked at when a dependency is checked |
| `CleanRemove.Cleaner.SupplementsRound` | src/cleandeps.c:934-973 | the pins and the queue after one round over the installed packages, in order |
| `CleanRemove.RoundFacts` | src/cleandeps.c:934-975 | a round only queues orphans that were not pinned, and pins all that their lost supplements look at; every other orphan is pinned; if nothing is queued nothing is pinned |
| `CleanRemove.LostPinsMember` | src/cleandeps.c:953-966 | the pins for a list of supplements are the installed packages looked at by one that once held or belongs to an erased namespace |
| `CleanRemove.Cleaner.PushDrags` | src/cleandeps.c:989-1038 | queues exactly the still installed packages, other than the system, that provide a require or recommend of the removed package, or are in a block of a complex one with no literal "not p", p not installed, in front |
| `CleanRemove.Cleaner.RemovePass` | src/cleandeps.c:928-1039 | the loop ends; user-installed packages stay; of the starting packages and of the providers and block members of what removed packages require and recommend, what is left is pinned; no unpinned orphan is left; every pin has a reason, and so has every removal: it was asked for, dragged out, or lost its supplements while all these looked at is pinned and stays; nothing is removed that is not in every set closed under the removal rules |
| `CleanRemove.FoundedStays` | src/cleandeps.c:30-43 | the reason for a pin, a package that lost its last supplement, does not go away as more is removed |
| `CleanAddBack.Keeper.AddBlock` | src/cleandeps.c:1170-1191 | adds exactly the installed, not removed packages of a block that is neither self-provided nor satisfied by a missing package |
| `CleanAddBack.Keeper.AddNeeds` | src/cleandeps.c:1125-1229 | adds exactly the lockstep packages and, of every require and recommend, the installed providers or block members not to be erased, unless the package provides the block itself or a missing package satisfies it |
| `CleanAddBack.Keeper.SupplementsRound` | src/cleandeps.c:1096-1123 | adds supplementing packages; a round that adds none has none left to add |
| `CleanAddBack.Keeper.AddBackPass` | src/cleandeps.c:1092-1230 | the loop ends in the least set that holds the start, is closed under requires, recommends and architecture lockstep of its members and of the jobs, and has every package with a possible supplement outside the remove set |
| `CleanDeps.NeedSurvives` | src/cleandeps.c:1158-1229 | with a closed set kept, a require or recommend of a kept or job package that holds with only the remove set gone also holds in every rest between the two |
| `CleanDeps.RestClosed` | src/cleandeps.c:1176-1191 | without lockstep the packages outside the remove set are closed, so nothing in the remove set is ever added back |
| `Cleanup.NormalFaithful` | src/cleandeps.c:455-468 | the normaliser's result for a complex dependency is a set of blocks that means the dependency |
| `Cleanup.CreateCleandepsMap` | src/cleandeps.c:876-1254 | the map is the installed packages outside the least kept set, the seeds, the mistakes and the candidates; what was removed first is what the remove pass promises, or everything not user-installed when looking for unneeded packages |
| `Cleanup.CleanupIsSafe` | src/cleandeps.c:624-644 | for every run, with updates, mistakes, candidates from any job and lockstep: what remains is the kept set and the exempt packages; no need of a remaining package that was kept or that a job asks for breaks unless erasing alone breaks it |
| `Cleanup.CleanupKeeps` | src/cleandeps.c:1176-1254 | without lockstep nothing erased is kept, and exactly the kept set remains when nothing else is exempt |
| `Cleanup.CleanupIsComplete` | src/cleandeps.c:928-1254 | adding back brings nothing iff what the remove pass leaves is closed; then everything removed, and with it all that a removed package drags out, is in the map unless pinned or exempt |
| `Cleanup.GetUnneeded` | src/cleandeps.c:1268-1288 | all packages nothing user-installed needs, ascending, and filtered to those no other unneeded package keeps |
| `SupplementChecks.PossibleTruth` | src/solver_util.c:106-140 | a supplement whose truth, read off the tree, holds is possible, and without COND and UNLESS the other way round |
| `SupplementChecks.PkgCheckMembers` | src/cleandeps.c:45-96 | the packages looked at are the providers of the parts read: both sides of an AND, what a condition is about and what holds otherwise |
| `SupplementChecks.LookedOnce` | src/cleandeps.c:76-78 | of one provider list every package comes once |
| `SupplementChecks.LookedAtDecides` | src/cleandeps.c:28-43 | nothing but the packages looked at decides whether a supplement is possible |
| `DecisionSort.DecisionQueue.MoveDecision` | src/decision.c:316-323 | moves one record forward, the ones between keep their order |
| `DecisionSort.PhaseOrder` | src/decision.c:336-361 | one phase: taken records, in any order the sort gives them, then the rest, is again an order in which every rule is unit when reached; a first record of the right sign is taken |
| `DecisionSort.SortUnitDecisions` | src/decision.c:325-367 | ends for every valid order and permutes only the given block; the result splits at cut points into runs of one sign, conflicts first and alternating; every record of a run is unit under the variables in front of the run, and no record of that sign behind it is; a run of several records is what the sort makes of them in their old order |
| `DecisionSort.SortedStaysValid` | src/decision.c:345-352 | the source tests variables only; for a permutation of a valid order that is enough for unit propagation literal by literal |
| `DecisionProof.VisitRule` | src/decision.c:391-412 | visiting a rule of a resolution chain finds its pivot as the only true literal and records the new literals as false |
| `DecisionProof.CollectChain` | src/decision.c:388-420 | a complete chain never reaches an abort, and is stored flat with its pivots |
| `DecisionProof.ChainRefutes` | src/decision.c:388-447 | the chain turned around is a refutation: every rule is unit under the decisions before it, the last one is falsified |
| `DecisionProof.SwapRefutes` | src/decision.c:449-464 | swapping the last two records keeps a refutation |
| `DecisionProof.ProofRecords` | src/decision.c:404-451 | record by record: rule, literal and reason number of the reversed chain, and what the exchange of the last two makes of them, with its condition on the rule's two literals |
| `DecisionProof.GetProof` | src/decision.c:369-493 | never aborts on a complete chain; unsorted, the records are exactly the premises and the reversed chain; sorted, the premises as the sort returns them, then the alternating runs of unit decisions, then the failing rule; in both cases a refutation |
| `Probe.TriHits` | src/hash.h:30-31 | the probe increments reach every residue of a power of two |
| `Probe.ProbeCovers` | ext/repo_rpmdb.c:894-923 | every slot of a table of 2^k is looked at within twice its size, from any start |
| `Probe.ProbeDistinct` | src/hash.h:30-31 | no slot is looked at twice among the first 2^k - 6 |
| `HashTables.TableSize` | src/hash.h:76-90 | a power of two above 2·num + 3 and at most twice that |
| `HashTables.HashTable.Find` | ext/pool_fileconflicts.c:121-131 | probing ends; it finds the key if it is stored, else a free slot that belongs to it |
| `HashTables.HashTable.Insert` | ext/pool_fileconflicts.c:134-142 | the table stands for the old map with the new key, also when it doubles |
| `HashTables.HashTable.Grow` | ext/pool_fileconflicts.c:74-105 | rehashing keeps the contents |
| `FileScan.FindDirs` | ext/pool_fileconflicts.c:106-155 | the directory table and the involved packages are those of the run of the first pass over all directories |
| `ConflictPasses.DirRunMeaning` | ext/pool_fileconflicts.c:132-155 | a directory is marked iff a package below the cutoff and another package have it, and then all its packages are involved, whatever the hash function |
| `FileScan.FindFiles` | ext/pool_fileconflicts.c:177-262 | the candidate queue of the second pass, with directory-only matches held back until a real file shows up |
| `ConflictPasses.CandidatesComplete` | ext/pool_fileconflicts.c:223-262 | every package with a path hash that also occurs in another package, one of them below the cutoff, becomes a candidate once a file that is no directory has it |
| `ConflictPasses.CandidatesSound` | ext/pool_fileconflicts.c:223-262 | a candidate's hash does occur in that package, and for a file that is no directory in some package |
| `Candidates.Prune` | ext/pool_fileconflicts.c:1032-1078 | in place, the sorted queue is reduced to one entry per hash and package, for hashes with a package below the cutoff and two packages |
| `FetchMap.Fill` | ext/pool_fileconflicts.c:1123-1134 | the fetch table holds exactly the block's hashes and remembers their slots |
| `FetchMap.Clear` | ext/pool_fileconflicts.c:1140-1147 | clearing the remembered slots empties the table |
| `FetchMap.Lookup` | ext/pool_fileconflicts.c:665-684 | finds a hash iff the package has a candidate with it |
| `FileExpand.Expand` | ext/pool_fileconflicts.c:1101-1153 | every candidate is replaced by records of the real files of its package with that hash, each once |
| `FileConflicts.Compare` | ext/pool_fileconflicts.c:1168-1211 | compares every pair within a run of equal hashes, once |
| `FileLists.ClashMeans` | ext/pool_fileconflicts.c:1200-1203 | files clash iff their digests differ and, with colours in use and on both files, they share one of the eight colour bits |
| `FileConflicts.ReportedOnce` | ext/pool_fileconflicts.c:1168-1211 | no conflict is reported twice |
| `FileConflicts.FindFileConflicts` | ext/pool_fileconflicts.c:901-1211 | for any hash function: only naive pairs are reported, and a naive pair is reported iff some file that is no directory has its hash in a directory shared with a package below the cutoff; always if one of the two is no directory |
| `FileConflicts.ExactlyNaive` | ext/pool_fileconflicts.c:901-1211 | with one digest for all directories the report is exactly the naive one |
| `DirIndex.Dirpool.AddDir` | src/dirpool.c:154-219 | over every sequence of calls: the probed answer is that of a linear scan, a new directory is appended, ids and parents never change, and index and child chains stay right |
| `DirPool.ScanUnique` | src/dirpool.c:187-198 | each (parent, component) has at most one id |
| `DirPool.AddedNames` | src/dirpool.c:200-212 | after adding, the directories are the old ones and the new one |
| `DirIndex.Dirpool.AddBlock` | src/dirpool.c:137-152 | the child chain updated for a new block equals the one built from scratch |
| `DirIndex.Dirpool.MakeDirtraverse` | src/dirpool.c:81-98 | the child chain is the one of the rebuild, and nothing else changes |
| `DirIndex.Dirpool.FreeDirtraverse` | src/dirpool.h:71-79 | drops chain and index, keeps the directories; the other operations build both again |
| `DirIndex.Dirpool.ResizeHash` | src/dirpool.c:106-135 | the new index holds every directory, findable by probing, in a table more than twice as large as needed |
| `DirIndex.Dirpool.Child` | src/dirpool.h:62-69 | the first entry of the last block of a directory, or 0 |
| `DirIndex.Dirpool.Sibling` | src/dirpool.h:43-60 | the next child in traversal order, or 0 at the end |
| `DirPool.ChildrenMembers` | src/dirpool.c:42-65 | the traversal order holds every child exactly once |
| `DirIndex.Dirpool.ListChildren` | src/dirpool.h:43-69 | following child and sibling links lists exactly that order |
| `AdaptOrder.Tables.Swap` | ext/repo_rpmdb.c:1604-1622 | swaps two slots of all three tables together |
| `AdaptOrder.Tables.AdaptOrder` | ext/repo_rpmdb.c:1765-1773 | for every permutation: slot i ends with what was in slot pkgids[i], in all three tables, and following the chain ends |
| `HardLinks.QuickTest` | ext/repo_rpmdb.c:862-879 | true iff there are few files and no two of them share a bit of the inode map |
| `HardLinks.QuickTestSound` | ext/repo_rpmdb.c:862-879 | when the quick test passes there is no link to kill, whatever the devices |
| `HardLinks.KilobytesMean` | ext/repo_rpmdb.c:820-834 | the k-th kilobyte is the one the size ends in, 0 for an empty file, k modulo 2^32 |
| `HardLinks.KillLinks` | ext/repo_rpmdb.c:894-923 | keeps the size of exactly the first non-empty regular file of each (inode, device); the probing ends |
| `HardLinks.SumUp` | ext/repo_rpmdb.c:930-941 | per directory the number of files and the sum of their sizes, modulo 2^32, corrupt directory indices skipped |
| `HardLinks.CountMeans` | ext/repo_rpmdb.c:933-937 | the number of files with that directory |
| `HardLinks.SizeShare` | ext/repo_rpmdb.c:938-940 | every regular file adds its size to its own directory and to no other |
| `HardLinks.UsageConserved` | ext/repo_rpmdb.c:860-941 | the directories' sizes add up to the total over distinct inodes with a valid directory |
| `HardLinks.AddDuData` | ext/repo_rpmdb.c:807-941 | which headers give up, and the counts and sums of the others |
| `TestcaseCode.TestcaseId2Str` | ext/repo_testcase.c:22-79 | the escaping loop writes the specified text |
| `TestcaseFormat.NameText` | ext/repo_testcase.c:22-79 | which names are printed as they are, and what the others become, with the two fixed names |
| `TestcaseFormat.PlainName` | ext/repo_testcase.c:28-52 | names without blanks, control characters, backslashes and parentheses are printed as they are, unless they start with one of `[(<=>!` or look like a namespace or an architecture |
| `TestcaseFormat.HarmlessExactly` | ext/repo_testcase.c:28-52 | the count of bad characters asks for escaping iff a name is not harmless: parentheses only in pairs, not nested, and nothing else to escape |
| `TestcaseFormat.EscapedChar` | ext/repo_testcase.c:66-75 | which characters become a backslash and two lower-case hexadecimal digits, first in a name or not |
| `TestcaseFormat.EscapedRest` | ext/repo_testcase.c:66-75 | escaping goes character by character |
| `TestcaseCode.Dep2StrComplex` | ext/repo_testcase.c:110-196 | the printer appends the specified text |
| `TestcaseCode.Str2DepSimple` | ext/repo_testcase.c:210-267 | the word parser is the specified one |
| `TestcaseCode.Str2DepComplex` | ext/repo_testcase.c:270-353 | the dependency parser is the specified one, and ends |
| `TestcaseCode.TestcaseStr2Dep` | ext/repo_testcase.c:355-360 | a text counts only when it is used up |
| `TestcaseFormat.HexRead` | src/util.c:254-290 | hexadecimal digits of both cases are read, and nothing else |
| `TestcaseFormat.BlanksSkipped` | ext/repo_testcase.c:276-277 | a blank or tab in front changes nothing |
| `TestcaseFormat.NumbersKept` | ext/repo_testcase.c:312-321 | an operator number is kept modulo 2^32 as a signed number; from 2^64 on it is -1 |
| `TestcaseWords.PrintedSpells` | ext/repo_testcase.c:22-79 | what is printed spells the string, and a printed name never ends in ":any" |
| `TestcaseWords.SpellingRead` | ext/repo_testcase.c:219-259 | a spelling is read back as its string |
| `TestcaseOperators.Distinguished` | ext/repo_testcase.c:81-108 | no operator is a prefix of a later one and its blank, so the first match is the right one |
| `TestcaseOperators.OpPrinted` | ext/repo_testcase.c:156-169 | every operator, named or numeric, negative ones included, is read back as itself; only -1 is refused |
| `TestcaseFormat.OperatorText` | ext/repo_testcase.c:81-108 | the 22 operators by number and symbol; every other number is printed in angle brackets as unsigned |
| `TestcaseFormat.OperatorRead` | ext/repo_testcase.c:306-341 | every symbol with a blank behind it is read as its number |
| `TestcaseFormat.MinusOneText` | ext/repo_testcase.c:162-167 | -1 is printed as `<4294967295>` |
| `TestcaseFormat.RelationText` | ext/repo_testcase.c:143-198 | for any two sides: which of them is printed in parentheses, with the symbol between blanks |
| `TestcaseFormat.LeavesText` | ext/repo_testcase.c:143-198 | two names: left side, blank, symbol, blank, right side, for all 22 operators |
| `TestcaseFormat.SpecialText` | ext/repo_testcase.c:128-141 | the two special forms: a namespace with its argument in parentheses, and a name with `:any` |
| `TestcaseReread.PrintThenParse` | ext/repo_testcase.c:110-360 | what comes back when every operator is known and every name ends where it was printed to end: words with ":any" as the parser reads them, and an operator given to the relation before it that takes it |
| `TestcaseDerail.Derailed` | ext/repo_testcase.c:270-292 | otherwise the text is refused, or another dependency with other names comes back |
| `TestcaseRoundTrip.RereadSame` | ext/repo_testcase.c:110-360 | when rereading changes nothing: no version that is a name with architecture, no string that reads as one in name position, no operator right behind a compat version or a relation with negative flags |
| `TestcaseRoundTrip.RoundTrip` | ext/repo_testcase.c:110-360 | for every dependency: parsing undoes printing iff no operator is -1, no name is cut or run on, and the tree is clean |
| `TestcaseRoundTrip.ReadableMeans` | ext/repo_testcase.c:281-292 | without the operator -1, a name is misjudged iff a namespace has "(" in its name, or a package "namespace" with any architecture has "(" somewhere behind it |
| `TestcaseRoundTrip.NamespaceParenFails` | ext/repo_testcase.c:281-292 | a namespace whose name holds "(", at any place in the tree, keeps it from coming back |
| `TestcaseRoundTrip.NamespaceAnyExact` | ext/repo_testcase.c:281-292 | of the clean trees without such names, exactly those with a parenthesis behind a package "namespace" with any architecture do not come back |
| `TestcaseRoundTrip.ParenExample` | ext/repo_testcase.c:281-292 | `namespace:a(b` with value `c` does not come back |
| `TestcaseRoundTrip.MinusOneFails` | ext/repo_testcase.c:309-325 | the operator -1, at any place in the tree, keeps it from coming back |
| `TestcaseRoundTrip.TailTaken` | ext/repo_testcase.c:143-186 | an operator right behind a comparison with a compat version, or behind a relation with negative flags, is read as part of that: the tree that comes back is given |
| `TestcaseRoundTrip.NegativeExample` | ext/repo_testcase.c:143-152 | `a <4294967294> b & c` does not come back |
| `TestcaseRoundTrip.CompatExample` | ext/repo_testcase.c:143-186 | `a = 1 compat >= 2 & b` does not come back |
| `TestcaseRoundTrip.NamespaceExample` | ext/repo_testcase.c:281-292 | `namespace:any &` in front of a parenthesised OR does not come back |
| `Crc24.ComputeCrc` | ext/repo_pubkey.c:99-113 | the bitwise loop computes the checksum |
| `Crc24.OneByteDetected` | ext/repo_pubkey.c:99-113 | changing any single byte of a packet of any length changes the checksum |
| `Crc24.ReferenceValues` | ext/repo_pubkey.c:99-113 | the start value of section 6.1 of RFC 4880, and the checksum of one byte by its generator |
| `Armor.RadixAlphabet` | ext/repo_pubkey.c:64-86 | the 64 letters of section 6.3 of RFC 4880 have their positions as values, no other character has one |
| `Armor.GroupMeans` | ext/repo_pubkey.c:209-225 | four letters write three bytes as one number, first byte highest; groups of two bytes and of one end with `=` |
| `Armor.BodyGroup` | ext/repo_pubkey.c:208-226 | where in the text the j-th group is, for every packet |
| `Armor.LinesOf64` | ext/repo_pubkey.c:210-214 | a line break after every 64 letters and nowhere else |
| `Armor.ArmorLayout` | ext/repo_pubkey.c:206-233 | the lines of the text; the checksum line writes the checksum as one number |
| `Armor.LineInFront` | ext/repo_pubkey.c:128-134 | lines in front of the start line are passed over |
| `Armor.HeaderLine` | ext/repo_pubkey.c:138-149 | header lines are skipped up to the first line of blanks |
| `Armor.BodyRead` | ext/repo_pubkey.c:155-170 | reading the groups written for a packet gives the packet and its padding, for all three padding cases, wrapped lines and the empty packet |
| `Armor.Rearmed` | ext/repo_pubkey.c:115-233 | a packet is read back iff the checksum with it is its own and the end line can be found |
| `Armor.RoundTrip` | ext/repo_pubkey.c:115-233 | for every packet and newline-free start and version lines: `unarmor(armor(pkt)) = pkt` iff the end line does not begin with white space; section 6 of RFC 4880 |
| `Armor.DamageRefused` | ext/repo_pubkey.c:176-180 | a packet with one damaged byte is refused |
| `ArmorCode.ArmorFits` | ext/repo_pubkey.c:202-203 | the allocated buffer is large enough for every packet |
| `ArmorCode.ArmorPacket` | ext/repo_pubkey.c:198-233 | the writing loop writes the specified text |
| `ArmorCode.R64Dec1` | ext/repo_pubkey.c:58-97 | one group: value, padding and position as specified, or the end of the text |
| `ArmorCode.Groups` | ext/repo_pubkey.c:150-167 | the decoding loop never overruns its buffer of l·3/4 + 4 bytes, for any text |
| `ArmorCode.UnarmorPacket` | ext/repo_pubkey.c:115-194 | the whole reader is the specified one; what it says it used ends with a newline, or is one past the text |
| `ApkVersion.ClassifyPart` | src/apk.c:51-97 | splits off the next part as specified, ends of the text included |
| `ApkVersion.CompareParts` | src/apk.c:128-163 | compares two parts of one class |
| `ApkVersion.VercmpApk` | src/apk.c:99-185 | the interleaved loop is the specified comparison |
| `ApkVersion.ComparesParts` | src/apk.c:116-185 | it equals the lexicographic comparison of the two versions parsed on their own |
| `ApkVersion.ZeroFirst` | src/apk.c:150-163 | behind the first part, a component with a leading zero is compared as a string, and so sorts below every one without, whatever the values |
| `ApkVersion.TotalPreorder` | src/apk.c:99-185 | on versions without fuzzy mark whose suffixes are known: antisymmetric in sign and transitive |
| `ApkVersion.Antisymmetric` | src/apk.c:99-185 | exchanging two versions without fuzzy mark negates the result, whatever their suffixes |
| `ApkVersion.UnknownSuffixCycle` | src/apk.c:169-183 | every version with an unknown suffix lies on a cycle with two known versions: itself cut before that suffix, and that with "_alpha" |
| `ApkVersion.JoinsExactly` | src/apk.c:99-185 | so a version can be ordered along with the known ones iff its suffixes are known |
| `ApkOrder.NumbersByValue` | src/apk.c:150-163 | digit strings of any length compare as the decimal numbers they stand for |
| `ApkOrder.StringsByCharacter` | src/apk.c:159-163 | other texts compare by the first character that differs, a beginning before what continues it |
| `ApkOrder.PartOrder` | src/apk.c:116-185 | two parts compare by the rank of their kinds, "alpha" lowest and numbers highest; parts of one rank by the value of their number, or as strings |
| `ApkOrder.FirstDifference` | src/apk.c:116-185 | the first parts that differ decide; with a fuzzy mark a version that ends there is equal |
| `ApkOrder.NoDifference` | src/apk.c:121-122 | versions whose parts all compare equal are equal, fuzzy or not |
| `ApkOrder.ParseShaped` | src/apk.c:51-97 | every part read is a number, a letter, a suffix word with digits, hexadecimal digits, or `r` with digits |
| `ApkOrder.SpelledParse` | src/apk.c:51-97 | a version written part by part is read as these parts, for every list of parts that do not run into each other |
| `ApkOrder.PartSpelled` | src/apk.c:51-97 | and what is read was written like that, as far as it goes |
| `ApkOrder.OnePartDecides` | src/apk.c:99-185 | versions that are alike up to one part are in the order of the ranks of these parts, or of the values of their numbers |
| `ApkOrder.EndDecides` | src/apk.c:165-185 | a longer version is the later one, unless "alpha", "beta", "pre" or "rc" follows |
| `ApkOrder.TenAfterNine` | src/apk.c:150-158 | 1.10 is later than 1.9 |

## Left out

- Fermat.FieldInverse: that 2^255 - 19 is prime is a hypothesis; its primality is not proved.
- ScalarMult.ScMult2: doubling and addition are those of an arbitrary commutative group; the group law of the curve (`mped25519_ptadd`, `mped25519_ptdouble`) and the final division by z are not part of this model, nor are square-root recovery, hashing and the signature decision.
- OrProviders.HoldsIsTruth: the provider table is a parameter; that its lists for ORs are the ones `AddOrProviders` makes is a condition here, and so, when names have to match, that a package matching a side is provided by it.
- EdgeBuild.BuildEdges: which of the recommended nodes come first, and so whether the last required one is left out, is stated with the lists of nodes in drawing order (`SecondPassMisses`); the packages looked at are those of the queue itself, as both callers pass it.
- CleanRemove.Cleaner.RemovePass: bounded from above by every closed set and from below up to the pins; which packages get pinned depends on the order of the queue, so it is not a least set.
- Cleanup.CleanupIsSafe: says nothing of the needs of a package that stays only because it is a seed, a mistake or a candidate and that no job asks for; the source does not look at those either.
- DecisionProof.GetProof: a record is a value of eight named fields instead of eight slots of a queue; what the rule information callbacks return and the sort order within a phase are parameters; trimming the records without info is left out.
- TestcaseRoundTrip.RoundTrip: strings are those of C, without NUL, and relation flags are a 32-bit int.
- ApkVersion.ClassifyPart: the revision test at `src/apk.c:79` compares plain `char`. In the model bytes from 0x80 up are above every digit, as where `char` is unsigned; where it is signed they are below, and "-r" in front of such bytes is classified differently.
- ApkVersion.TotalPreorder: versions with a fuzzy mark are compared by the model but have no order properties.
- HardLinks.AddDuData: which header tags exist is a parameter; storing the result in the repository data is left out.
- Loops of one C function are often separate methods here, and the local state of `trj_visit`, the cleanup loops and the permutation loop is kept in the fields of a class.
- Memory allocation, `solv_sort` (any function that permutes), timing and debug output.
- The blocks of a complex dependency in the cleanup and in the edges are a table of lists that stands for the normaliser's output; the flat queue it fills is modelled in `Normalize`.
- How `solver_createcleandepsmap` collects its starting sets from jobs, products, patterns, linked packages and the considered map, and the seeds of updates: they are parameters.
- Candidate and conflict records of the file conflict search are values, offsets into the file space are indices, and the masks' bit tricks are doubling loops. Alias mode, the precheck of installed file lists and the final sort of the report are left out.
- The bit map of inodes is a row of 8192 booleans instead of 256 words.
- `mped25519_reduce512_l`, `mpsetfrombe`, `mpbuild` and `findmpi`: one call of `mpdomod`, and byte unpacking.
- Loaders for the repository formats, compression, database access, checksum primitives, conda matching, and the rendering of decisions as text.
