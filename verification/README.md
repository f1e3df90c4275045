# Verified models of Mercurial's history rewriting

Five parts of Mercurial that rewrite or walk revision graphs, with the bookkeeping that has to
stay right while they do, modelled in Dafny 4.11 and proved. `dafny verify dfyconfig.toml`
checks everything.

| part | files |
|---|---|
| shared: finite sequences and sets, directed graphs, line diffs | `Lists`, `Digraph`, `Diff` |
| histedit: the session, its state file, the final collapse of replacements, the reorder screen's conflict lists | `Replacements`, `HisteditSession`, `StateText`, `HisteditStateFile`, `HisteditReorder` |
| the linelog: its weave, and the program of conditional jumps that implements it | `Weave`, `LinelogSlots`, `LinelogPatch`, `LinelogProgram`, `LinelogEdits`, `Linelog` |
| absorb: fixups of many revisions at once, made on that linelog | `Absorb`, `AbsorbFixups`, `AbsorbMerging`, `AbsorbChunks`, `AbsorbOutcome`, `AbsorbState`, `AbsorbOverlay` |
| fix: line ranges, base revisions, the work queue and its results, the rewriting | `FixRanges`, `FixGraph`, `FixPipeline` |
| fast export: marks that never dangle | `FastExport` |
| import checker: the shortest cycle through a module | `ImportChecker` |

## Main results

* **Histedit.** `HisteditSession.EveryRunIsAcyclic`: over every run of a session (any accepted
  plan, actions that run through, interventions, resumes, edited plans) the replacements stay
  acyclic. What it asks of the user is listed below, and is exact for the invariant
  (`RunKeepsSoundIff`, `ResumeKeepsSoundIff`, `ReplanKeepsSoundIff`).
  `Replacements.CloseMapping` shows that acyclicity is all the collapse at the end needs,
  `Replacements.StuckAfterRewrite` and `AcyclicIffNothingStuck` that it needs no less.
  `HisteditStateFile.InterruptedRunsMatch` carries a session through its text file and back at
  any action.
* **Linelog and absorb.** A linelog is a program that patches itself. `Linelog.LineLog` keeps
  the program, its cached annotation and a ghost order of its instructions; `ReplaceLines` and
  `Annotate` are proved against the weave, a plain list of lines with birth and death.
  `AbsorbState.AbsorbFile` runs absorb on that program, and the lemmas beside it say what every
  revision of the stack becomes. `AbsorbOutcome` tells it from the revisions of the lines alone
  (`DeletionOutcome`, `EqualLengthOutcome`, `InsertionOutcome`, `OtherOutcome`).
* **Fix.** For every order in which workers deliver, `FixPipeline.FixRun.Consume` commits every
  revision once, in order and complete, and `FixPipeline.AllReplacedAreTheAffected` says which
  revisions that replaces and with which parents.
* **Fast export.** `FastExport.ImportRebuilds`: importing the stream gives every exported changeset
  back, with its manifest and its parents; `StreamNeverDangles` and `ExportIncrementally`.
* **Import checker.** `ImportChecker.CheckMod` and `ImportChecker.FindCycles`.

## What is assumed

* Histedit: commits are abstract ids, and new commits have fresh ones. The plan passed
  `verifyactions`. A base revision has not been replaced in the session by the time it runs.
  During an intervention the user leaves the working copy at the current parent, at a fresh
  descendant of it, or, for actions other than folds, at the rule's own node. The plan is edited
  only while no pending base is the current parent or was replaced
  (`HisteditSession.BasesUntouched`, exact by `ReplanKeepsSoundIff`). Obsolescence
  markers are off for the statement about runs, and are treated by themselves in
  `Replacements.AdjustFromMarkers`; `ProcessReplacement` takes the list as adjusted. For the
  state file, nodes have 20 bytes and the backup's name has no newline.
* Line diffs (`Diff.IsDiff`): changed chunks come in order, at least one common line apart, and
  the texts agree around them. This is what `mdiff.allblocks` is used for.
* Fix: the workers deliver, in any order, an arbitrary optional new content for each item they are
  given; parents have smaller revision numbers. What a revision becomes when it is created anew is
  left open: a new one, the same again, or another that exists (the code looks only for the same
  again, where its description speaks of any existing one).
* Fast export: changeset and file ids are distinct; a file that `ctx.files()` does not list has
  the file node it has in some parent; a changeset that is no merge leaves the files that it does not
  list as they are in its parent. The format is that of the "Input Format" section of the
  git-fast-import manual.
* Absorb's hunks (`AbsorbOverlay.Apart`): they do not overlap, and of those that start at one line
  at most one removes lines.

## What the proofs turned up

* A fold that is resumed while the working copy is at the fold's own changeset records that the
  changeset replaces itself. The collapse then never ends
  (`HisteditSession.FoldResumedOnItselfIsCyclic`). Nor does it end if the working copy is at a
  changeset that the fold's changeset was made from, which happens when the base of an edited plan
  is folded (`FormerBaseIsCyclic`). In all other places it does (`FoldResumedIsAcyclicIff`);
  `FoldAdmissibleIff` is the exact condition for the whole invariant.
* An edited plan has to list the node of a pending base as an ordinary rule. If that node is the
  current parent or was replaced, the session is not sound any more, and can end in a cycle
  (`HisteditSession.EditedBaseIsCyclic`, for the edit of `EditIsAcceptable`;
  `ReplanKeepsSoundIff` gives the exact condition).
* On the reorder screen, a `goto` with a rule selected swaps distant rules and rechecks only
  those two, so a rule in between can miss a conflict or keep a stale one
  (`HisteditReorder.DistantSwapMissesInversion`; `SwapStaysExactIff` gives the exact condition).
* There, with later commits on top, an action key changes the rule mirrored to the one under the
  cursor (`HisteditReorder.ActionHitsCursorIff`), and a selection at position 0 does not follow
  a swap (`ReorderState.Swap`).
* On that screen, help opened over a patch never leads back to the rules: from then on the keys
  only switch between help and patch (`HisteditReorder.HelpOverPatchIsFinal`; `RulesComeBackIff`
  gives the exact condition). A patch is loaded only when it is opened: moving the cursor while it
  is shown leaves the old one on the screen (`ReorderState.Turn` says exactly when).
* `replacelines` may be called as of an older revision if the line it inserts before and the last
  line it deletes are not newer than that revision (`Linelog.InOrder`). An insertion before a
  newer line is lost in the older revisions (`Linelog.EarlyInsertionIsLost`; for insertions
  `InsertionIsSeenIff` gives the exact condition). Absorb always meets `InOrder`
  (`AbsorbState.ReplayOne`).
* `fix` commits nothing when there is no result at all, even if revisions were to be fixed
  (`FixPipeline.FixRun.Consume`).
* `fix` puts a revision on a replaced parent if the parent became a revision that is fixed itself
  (`FixGraph.ReplacedParentKept`; `OnReplacedParentIff` gives the exact condition).
* A fast export from a marks file that names changesets without all of their contents can stop at a
  merge (`FastExport.MissingContentStops`; `RunsIff` gives the exact condition). An export that
  starts from no marks, or from complete ones, never does, and leaves complete ones
  (`CompleteMarksRun`).

## Model

| member | source | states |
|---|---|---|
| Replacements.RewriteRow | hgext/histedit.py:2564-2576 | the inner loop keeps a half-rewritten row meaning the same: it still reaches exactly the sinks of its node, finishes exactly if it holds no node that is still to be processed, and an early break loses none of those |
| Replacements.StuckAfterRewrite | hgext/histedit.py:2564-2576 | a set of nodes each of whose rows leads back into the set stays so whatever rows are rewritten in whatever order, and none of them is ever finished |
| Replacements.AcyclicIffNothingStuck | hgext/histedit.py:2560-2576 | such a set exists exactly if the recorded replacements are cyclic: acyclicity is what the loop needs to end, no more and no less |
| Replacements.ClosePass | hgext/histedit.py:2563-2576 | one pass over the nodes in any order keeps all rows right, finishes the node that nothing unprocessed hangs below, and finishes no node of a stuck set |
| Replacements.CloseMapping | hgext/histedit.py:2560-2576 | on any acyclic list the fixpoint loop ends, and maps every node to exactly the never-replaced nodes reachable from it |
| Replacements.CollectReplacements | hgext/histedit.py:2546-2554 | the three collections are the successors, the replaced nodes and the union of the recorded rows |
| Replacements.CreatedNodesAreTheSinks | hgext/histedit.py:2555-2579 | the created nodes are exactly the sinks reached from nodes that are nobody's successor |
| Replacements.MappingEndsInCreated | hgext/histedit.py:2577-2584 | the values of the final mapping together are exactly the created nodes |
| Replacements.DropAndSort | hgext/histedit.py:2577-2584 | every temporary node is found and removed, and the successors of the others are listed once each in revision order |
| Replacements.NewTopmost | hgext/histedit.py:2586-2596 | newest created node; or parent of the oldest replaced one if all are gone; or none |
| Replacements.ProcessReplacement | hgext/histedit.py:2546-2598 | mapping keys, temporary and created nodes partition the nodes mentioned; each key is mapped to the sinks reachable from it; the values are all created nodes and no others |
| Replacements.PopNode | hgext/histedit.py:2521-2534 | a popped node adds its marker entries, or an empty one if it is unknown and has no marker, and pushes only nodes never pushed before |
| Replacements.AdjustFromMarkers | hgext/histedit.py:2501-2536 | ends on any finite marker graph, cyclic ones included; a node reachable from a recorded successor comes to count as replaced exactly if it has a marker or is missing, by exactly the successors its markers list; everything recorded before stays |
| Replacements.EntriesAdjust | hgext/histedit.py:2520-2534 | the entries added mean just that: which nodes they replace, and which edges they record |
| Replacements.CreatedAreKnown | hgext/histedit.py:2520-2534 | thanks to the dead-end entries no replacement of the adjusted list ends in a missing node |
| HisteditSession.OrderedConcat | hgext/histedit.py:2091 | extending the replacements keeps them in order exactly if both lists are and no new edge leads to a node replaced before |
| HisteditSession.OrderedIsAcyclic | hgext/histedit.py:2091 | if no edge leads to a node replaced at the time, the recorded graph is acyclic |
| HisteditSession.AdvanceKeepsSoundIff | hgext/histedit.py:2089-2092 | a session stays sound over a concluded action exactly if the new parent and the new edges are admissible |
| HisteditSession.FoldAdmissibleIff | hgext/histedit.py:857-886 | a fold that finishes keeps the invariant exactly if the user left the working copy at a usable node other than the rule's own |
| HisteditSession.DropRecords | hgext/histedit.py:1032-1034 | a drop leaves the parent alone and adds one entry, by which its changeset becomes nothing |
| HisteditSession.InPlaceRecords | hgext/histedit.py:797-801 | a pick on its own parent, and a base, make their changeset the parent and record nothing |
| HisteditSession.CommitRecords | hgext/histedit.py:615-628 | a changeset that was applied becomes the commit made, or nothing if none was made, or stays if the working copy is at it; nothing else is recorded |
| HisteditSession.FoldRecords | hgext/histedit.py:857-967 | the folded changeset, the parent and all commits on top of it become the one new commit; without such commits the changeset becomes the parent; nothing else is recorded |
| HisteditSession.EveryRuleAccounted | hgext/histedit.py:2082-2092 | each changeset that a rule was run for is recorded as replaced, or was left as the session's parent |
| HisteditSession.DroppedBecomesNothing | hgext/histedit.py:2082-2092 | a dropped changeset is recorded as replaced by nothing, and stays so to the end of the plan |
| HisteditSession.ResumeKeepsSoundIff | hgext/histedit.py:2332-2343 | resuming after an intervention keeps the session sound exactly if the working copy is at the parent, at a usable new node, or, for actions other than folds, at the rule's own node |
| HisteditSession.RunKeepsSoundIff | hgext/histedit.py:569-574 | the same for an action that runs through, including in-place picks, drops and base |
| HisteditSession.FoldResumedOnItselfIsCyclic | hgext/histedit.py:871-879 | a fold resumed with the working copy at its own node records an edge from the node to itself, so that the replacements can never be collapsed |
| HisteditSession.FoldResumedIsAcyclicIff | hgext/histedit.py:857-886 | wherever the working copy is when a fold is resumed, the replacements become cyclic exactly if it is at the fold's own node or at one that the fold's node was recorded to be made from |
| HisteditSession.OneEdgeAddedIff | hgext/histedit.py:871-879 | recording one more edge, and others into a new node, closes a cycle exactly if the edge's start could be reached from its end |
| HisteditSession.FormerBaseIsCyclic | hgext/histedit.py:871-879 | a run over two edited plans, in which a former base is folded and resumed at an older node it was made from, and the cycle that records |
| HisteditSession.VerifyActions | hgext/histedit.py:2456-2498 | accepts exactly the plans with one rule for each changeset of the range, verbs in legal places and folds into mutable changesets; the plan is the rules, behind drops for missing ones if so configured |
| HisteditSession.AcceptedFoldsAreLegal | hgext/histedit.py:827-843 | no accepted fold comes first, or folds into a picked or base changeset that must not change |
| HisteditSession.AcceptedPlanCovers | hgext/histedit.py:2456-2498 | an accepted plan names exactly the changesets of the range, each once, and bases only outside it |
| HisteditSession.StartIsSound | hgext/histedit.py:2225-2322 | a session that starts with an accepted plan is sound |
| HisteditSession.ReplanKeepsSoundIff | hgext/histedit.py:2209-2222 | after any accepted edit of the remaining plan, base rules pending or not, the session is sound exactly if no pending base is the current parent or a replaced node |
| HisteditSession.EditIsAcceptable | hgext/histedit.py:2459-2486 | an edit that folds a node which was a pending base is accepted |
| HisteditSession.EditedBaseIsCyclic | hgext/histedit.py:2326-2345 | continuing with the plan of that edit, with nothing changed in the working copy, records a node as its own replacement |
| HisteditSession.EditedSessionStarts | hgext/histedit.py:2209-2222 | the session before that edit is one that a session may start as, and its pending base is the current parent |
| HisteditSession.NextKeepsSound | hgext/histedit.py:2053-2092 | every step of a session keeps it sound: running, stopping, resuming, editing the plan, marking folds |
| HisteditSession.MarkingKeepsSoundIff | hgext/histedit.py:2060-2063 | a session with its inner folds marked is sound exactly if it was before |
| HisteditSession.StretchStaysSoundIff | hgext/histedit.py:2082-2092 | a stretch of a plan goes through sound sessions only exactly if each turn leaves the working copy where its action may take it from |
| HisteditSession.EveryRunIsAcyclic | hgext/histedit.py:2053-2094 | in every state of every run the current parent has not been replaced, no edge leads to a node replaced before, and the replacements are acyclic |
| HisteditSession.OneEditorPerRunOfFolds | hgext/histedit.py:2060-2063 | of each run of folds exactly the last one stays an editor-opening fold |
| HisteditSession.MarkingSuffixAgain | hgext/histedit.py:2060-2063 | marking what is left of a marked plan again changes nothing |
| HisteditSession.RunAllConsumes | hgext/histedit.py:2082-2092 | each turn consumes exactly one action |
| HisteditSession.HisteditState.MarkFolds | hgext/histedit.py:2060-2063 | marks the inner folds and changes nothing else |
| HisteditSession.HisteditState.Conclude | hgext/histedit.py:2089-2092 | sets the parent, appends the replacements and pops the action |
| HisteditSession.HisteditState.ContinueHistedit | hgext/histedit.py:2053-2094 | marks folds, then runs actions until an edit or another one stops or all are done; the state saved last is the state in memory; a sound session stays sound if its turns may be taken |
| HisteditSession.HisteditState.BootstrapContinue | hgext/histedit.py:2326-2345 | takes the first action off and concludes it from what the user left; the session then is sound exactly if the working copy was where it may be |
| HisteditSession.HisteditState.Finish | hgext/histedit.py:2097-2115 | at the end of a sound session the collapse ends; every replaced node is mapped or temporary, and the current parent is neither |
| HisteditSession.HisteditState.ContinueAndFinish | hgext/histedit.py:2048-2049 | from a sound session, the rest of the plan runs and then the collapse ends, as at the end of every new or continued session; each dropped changeset is mapped to nothing, or is temporary if something had become it |
| StateText.BinOfHex | hgext/histedit.py:417-418 | a node comes back from its hexadecimal form |
| StateText.BinReadsIff | hgext/histedit.py:442-445 | exactly the even numbers of hexadecimal digits are read, as half as many bytes |
| StateText.ParseIntOfDecimal | hgext/histedit.py:456 | a count comes back from its decimal form |
| StateText.SignedNumberParses | hgext/histedit.py:452 | a count is read over blanks around it and a sign before it |
| StateText.LinesOfUnlines | hgext/histedit.py:439 | lines without newlines come back from the text they were written to |
| HisteditStateFile.Write | hgext/histedit.py:415-435 | the text written is exactly the state's lines |
| HisteditStateFile.StateFileLooksLike | hgext/histedit.py:415-435 | the lines of a small session's file, literally |
| HisteditStateFile.LoadReplacements | hgext/histedit.py:466-477 | reads exactly the given number of lines, each with a successor list of any length, and fails if one does not parse |
| HisteditStateFile.Load | hgext/histedit.py:437-484 | what is read is what the lines hold, counts with blanks, signs and underscores included; too few lines or malformed ones make it fail |
| HisteditStateFile.ReplacementLineParses | hgext/histedit.py:470-476 | a replacement with any number of 20-byte successors comes back from its line |
| HisteditStateFile.RuleLineParses | hgext/histedit.py:2429-2438 | a rule line of a verb and a node parses to the action it was made from |
| HisteditStateFile.ParseRules | hgext/histedit.py:2421-2439 | all lines parse or the whole fails; blank and comment lines are ignored |
| HisteditStateFile.IgnoredLineLeavesRules | hgext/histedit.py:2423-2427 | a blank line or a comment, anywhere, leaves the rules what they are |
| HisteditStateFile.BlanksAround | hgext/histedit.py:2425 | blanks around a rule make no difference |
| HisteditStateFile.ShortVerb | hgext/histedit.py:2432-2436 | the short name of each verb parses like the long one |
| HisteditStateFile.SummaryIgnored | hgext/histedit.py:501-515 | what follows the node on a rule line is not looked at |
| HisteditStateFile.RulesReparse | hgext/histedit.py:392 | actions survive the detour through rule text |
| HisteditStateFile.SavedSessionReadsBack | hgext/histedit.py:368-484 | reading what was written gives the session back; an absent backup name reads as empty |
| HisteditStateFile.StopAndContinueIsRun | hgext/histedit.py:2326-2345 | an action that stops, is saved, read back and continued leaves what the same action leaves running through |
| HisteditStateFile.InterruptedRunsMatch | hgext/histedit.py:2082-2092 | a session interrupted at any of its actions reaches the parent, replacements and remaining rules of the uninterrupted one |
| HisteditReorder.CheckStep | hgext/histedit.py:1196-1204 | one more check of a moved rule makes its list right at one more position |
| HisteditReorder.ExactListMeans | hgext/histedit.py:1196-1204 | an exact list names just the rules that were before this one, are behind it now and touch a file that it touches |
| HisteditReorder.MovedRulesStayExact | hgext/histedit.py:1575-1579 | after a swap of any distance both moved rules list exactly, once each, the earlier rules now behind them that share a file; all other lists are as before |
| HisteditReorder.UnmovedRuleExactIff | hgext/histedit.py:1577-1579 | a rule that is not moved stays right exactly if no rule it conflicts with is moved across it |
| HisteditReorder.SwapStaysExactIff | hgext/histedit.py:1557-1579 | a swap keeps all lists right exactly if no rule between the two positions shares a file with a moved rule it changes sides with |
| HisteditReorder.SwapStaysConsistent | hgext/histedit.py:1566-1573 | rules stay a permutation, and every rule knows its position |
| HisteditReorder.NeighbourMovesStayExact | hgext/histedit.py:1473-1482 | over any run of one-position moves every list is right |
| HisteditReorder.DistantSwapMissesInversion | hgext/histedit.py:1490-1494 | a concrete distant swap, as `goto` makes it, that leaves a list short of a conflict |
| HisteditReorder.ReorderState.Swap | hgext/histedit.py:1557-1582 | swaps the rules at the two display positions and rechecks both; a selection follows unless it is at position 0 |
| HisteditReorder.ReorderState.Event | hgext/histedit.py:1452-1512 | each key, looked up by the mode, moves the cursor, the rule or the selection, sets or cycles the action, opens or leaves a view, loads a patch, or is passed on; the view scrolls as far as the cursor asks; rules stay a permutation; every key but a digit keeps exact lists exact |
| HisteditReorder.ActionHitsCursorIff | hgext/histedit.py:1495-1496 | an action key changes the rule under the cursor exactly if the display is not reversed or the cursor is in the middle |
| HisteditReorder.CycledBack | hgext/histedit.py:1589-1602 | cycling an action one way and then the other gives it back |
| HisteditReorder.CycleOrder | hgext/histedit.py:1589-1602 | cycling goes through the list of actions in order, and from its end to its start |
| HisteditReorder.RulesComeBackIff | hgext/histedit.py:1547-1552 | some keys lead back to the list of rules exactly if it is shown or was shown just before the view that is open |
| HisteditReorder.HelpOverPatchIsFinal | hgext/histedit.py:1499-1502 | once help is opened over a patch no keys at all lead back to the list of rules |
| HisteditReorder.ReorderState.Press | hgext/histedit.py:1452-1582 | a move key takes the rule under the cursor along by one place, and the others keep their order; a number takes a selected rule to the place of the rule with that number, exchanging the two; other keys move no rule |
| HisteditReorder.ReorderState.Turn | hgext/histedit.py:1656-1679 | through every turn of the loop, changes of the mode and the size included, the cursor stays among the rules shown; the patch shown stays that of the rule under the cursor exactly if no key moves the cursor off that rule while it is shown |
| HisteditReorder.ScrollShows | hgext/histedit.py:1533-1543 | scrolling brings the cursor into view, and moves the list no further than any other offset that does |
| HisteditReorder.ViewStaysInside | hgext/histedit.py:1604-1617 | scrolling a patch never leaves it |
| HisteditReorder.ViewMoves | hgext/histedit.py:1604-1617 | a patch scrolls by just what was asked for, as long as that leaves a full page |
| LinelogSlots.InfosAreShown | mercurial/linelog.py:402-427 | the lines a run of the program emits are those the weave behind it shows |
| LinelogSlots.LinkedFront | mercurial/linelog.py:314-399 | what follows a part of a program may be exchanged for anything execution enters at the same address in every revision |
| LinelogPatch.PatchLinked | mercurial/linelog.py:343-386 | with a patch made, execution in every revision still goes from each executed instruction to the next one, and enters the patch as it entered the patched instruction |
| LinelogPatch.LinesOfPatched | mercurial/linelog.py:343-386 | the lines of the patched program: the old ones before, the inserted ones, the skipped ones marked deleted, the rest |
| LinelogPatch.InfosOfPatched | mercurial/linelog.py:388-397 | the live lines of the patched program with their new addresses |
| LinelogProgram.Step | mercurial/linelog.py:411-415 | a step of a run comes to a later instruction or ends at the last |
| LinelogProgram.SlotsFit | mercurial/linelog.py:405-421 | there are more instructions than places to execute, so the guard against endless loops never strikes |
| LinelogProgram.PatchedWoven | mercurial/linelog.py:343-386 | appending instructions and patching one jump keeps the program well woven |
| LinelogEdits.CutDeletion | mercurial/linelog.py:366-380 | where the lines to be deleted begin and end in the program: behind the last one as of an older revision, at the next live one as of the newest |
| Linelog.Run | mercurial/linelog.py:402-427 | running the program for a revision always ends, with the lines executed in that revision and their addresses |
| Linelog.BehindLine | mercurial/linelog.py:374-380 | the instruction behind a live line is executed in every revision that has the line, so a deletion may jump there |
| Linelog.LineLog.constructor | mercurial/linelog.py:240-249 | the empty program stands for no lines |
| Linelog.LineLog.Annotate | mercurial/linelog.py:402-427 | annotating a revision gives the weave's lines of that revision, for the newest one the live lines; it never fails |
| Linelog.LineLog.ReplaceLines | mercurial/linelog.py:314-399 | if the lines concerned are not newer than the revision, the program becomes that of the weave with the lines replaced, and the cached annotation stays that of the newest revision |
| Linelog.InsertionIsSeenIff | mercurial/linelog.py:343-386 | as of any revision, older ones included, an insertion leaves a program that runs through; every revision then has the lines it should have exactly if nothing is inserted, or it is at the end or before a line that is not newer |
| Linelog.EarlyInsertionIsLost | mercurial/linelog.py:343-386 | a line inserted as of revision 1 before one of revision 2 is not in revision 1 |
| Linelog.LineLog.GetAllLines | mercurial/linelog.py:438-466 | gives exactly the lines, hidden ones included, from one place of the program up to another, or up to the end if the second does not follow the first; never runs out of steps |
| Linelog.WholeProgram | mercurial/linelog.py:439-441 | from 0 to 0 it is all lines that ever were |
| Linelog.LinesBetween | mercurial/linelog.py:435-436 | between the places of two live lines lie as many lines as their places in the weave are apart |
| Weave.LiveAt | mercurial/linelog.py:435-436 | the offset of a live line splits the weave at that line |
| Weave.ReplaceLinesShows | mercurial/linelog.py:314-399 | after lines are replaced as of a revision every older revision is as before, and every other has the new lines in place of the old |
| Weave.ReplaceLinesLive | mercurial/linelog.py:314-399 | in the newest revision exactly the given lines are replaced |
| Absorb.HalfwayStep | hgext/absorb.py:458-459 | replacing one more chunk, from the back, makes one more part of the newest revision new and leaves all older revisions alone |
| Absorb.AddRevision | hgext/absorb.py:454-460 | after the diff of content i is applied in reverse, every revision up to i checks out as its content |
| Absorb.BuildLinelog | hgext/absorb.py:448-461 | in the linelog of any number of contents, revisions 2i+1 and 2i+2 are exactly the i-th content |
| AbsorbFixups.SubstituteMerged | hgext/absorb.py:584-592 | two touching substitutions are one |
| AbsorbFixups.FixupSpan | hgext/absorb.py:549-564 | a revision that sees a sound fixup has exactly the amended lines between its ends |
| AbsorbFixups.ApplyAllSplits | hgext/absorb.py:369-377 | applied from the back, the last fixup changes only what lies from its place on, and the others only what lies before |
| AbsorbFixups.FixupsSubstituteEverywhere | hgext/absorb.py:362-381 | after all fixups every revision is what it was with the fixups of its own and older revisions substituted at their places all at once |
| AbsorbFixups.OlderRevisionsUnchanged | hgext/absorb.py:362-381 | a revision older than all fixups checks out unchanged |
| AbsorbMerging.CheckContinuous | hgext/absorb.py:549-564 | true exactly if no hidden line lies among the given live lines |
| AbsorbMerging.ContinuousIff | hgext/absorb.py:549-564 | as many lines as live ones lie between two live lines exactly if none of them was deleted |
| AbsorbMerging.OptimizeFixups | hgext/absorb.py:566-595 | the merged list, from a single pass over the fixups |
| AbsorbMerging.NothingLeftToMerge | hgext/absorb.py:584-592 | no two neighbours of the result could still be merged |
| AbsorbMerging.NoTouchingNeighbours | hgext/absorb.py:577-592 | no two fixups are left that touch, are of one revision and have no deleted line where they touch |
| AbsorbMerging.MergedAllOk | hgext/absorb.py:566-595 | merged fixups are sound again, sorted, disjoint and without hidden lines, and end where the list ended |
| AbsorbMerging.MergingChangesNothing | hgext/absorb.py:566-595 | replaying the merged fixups gives every revision the lines that replaying the single ones gives |
| AbsorbChunks.InvolvedRevs | hgext/absorb.py:407-415 | the revisions of the chunk's lines; of a pure insertion, those of the one or two neighbouring lines that are not immutable |
| AbsorbChunks.AnalyseDiffChunk | hgext/absorb.py:388-437 | whole chunk if it belongs to one revision without a gap, line by line if lines pair or are deleted, else nothing; merged; what that makes of each kind of chunk is stated by the lemmas of `AbsorbOutcome` |
| AbsorbChunks.FixupsOfChunkOk | hgext/absorb.py:417-437 | the fixups of a chunk lie in it, target even revisions from 4 on, and cover no hidden line |
| AbsorbChunks.RawFixupsOk | hgext/absorb.py:350-354 | over all chunks the fixups are sorted and disjoint |
| AbsorbChunks.MergedChunkwise | hgext/absorb.py:350-354 | fixups of different chunks are never merged, so merging chunk by chunk is merging all of them |
| AbsorbChunks.DiffFixupsOwned | hgext/absorb.py:417-436 | every fixup amends the revision its lines come from, or a revision, not the first, of a line it is inserted next to |
| AbsorbOutcome.ChunkAmended | hgext/absorb.py:417-436 | what the fixups of one chunk make of its text |
| AbsorbOutcome.DeletionOutcome | hgext/absorb.py:425-436 | of lines that are deleted exactly the immutable ones stay, whatever revisions the others are of |
| AbsorbOutcome.EqualLengthOutcome | hgext/absorb.py:425-436 | where as many lines come as go, each becomes its partner unless it is immutable |
| AbsorbOutcome.InsertionOutcome | hgext/absorb.py:407-422 | lines are inserted exactly if the lines next to them that are not immutable are of one revision |
| AbsorbOutcome.OtherOutcome | hgext/absorb.py:417-422 | any other chunk is taken exactly if its lines are of one revision, not the first, with no deleted line among them |
| AbsorbOutcome.AbsorbedIff | hgext/absorb.py:388-437 | a chunk is taken in full exactly if these conditions on the revisions of its lines say so |
| AbsorbOutcome.AdoptedChunkIff | hgext/absorb.py:350-356 | a chunk counts as adopted exactly if something of it is taken |
| AbsorbOutcome.NewestRevisionIsAmended | hgext/absorb.py:362-381 | after apply the newest revision is its old text with each chunk amended: taken whole, line by line with immutable lines kept, or left alone |
| AbsorbOutcome.AbsorbedDiffIsTarget | hgext/absorb.py:388-437 | where every line of every chunk is amended, the amended text is the target |
| AbsorbState.FileFixupState.constructor | hgext/absorb.py:302-325 | a new state has the linelog of its contents and no fixups |
| AbsorbState.FileFixupState.DiffWith | hgext/absorb.py:327-360 | the fixups are those of all chunks in order; the statistics count the chunks and those of which something is taken |
| AbsorbState.ReplayOne | hgext/absorb.py:369-377 | each fixup, from the last to the first, meets the conditions of `replacelines`, and the others still do afterwards |
| AbsorbState.FileFixupState.Apply | hgext/absorb.py:362-381 | the linelog has all fixups applied, and the final contents are its even revisions |
| AbsorbState.FileFixupState.CheckoutLinelog | hgext/absorb.py:463-471 | content i is revision 2(i+1); fails exactly if a line is named that is not there |
| AbsorbState.EveryLineIsThere | hgext/absorb.py:541-547 | with the fixups of a change applied, every line that any revision names is there to be read |
| AbsorbState.FixupsAreSubstituted | hgext/absorb.py:362-381 | each final content is the old one with the fixups it sees substituted at once |
| AbsorbState.OlderContentsUnchanged | hgext/absorb.py:362-381 | a content older than all fixups stays |
| AbsorbState.UntouchedContentsUnchanged | hgext/absorb.py:362-381 | a content older than the lines that the diff touches, the immutable ones aside, stays |
| AbsorbState.FirstIsImmutable | hgext/absorb.py:305-306 | the first content never changes |
| AbsorbState.NewestBecomes | hgext/absorb.py:388-437 | the newest content becomes its text with every chunk amended |
| AbsorbState.FullyAbsorbedIsTarget | hgext/absorb.py:388-437 | if every chunk can be absorbed, the newest content becomes the target |
| AbsorbState.TakenChangeIsTarget | hgext/absorb.py:388-437 | if no immutable line is deleted or paired, no insertion lies between two revisions or next to none, and all other chunks are of one revision, the newest content becomes the target |
| AbsorbState.AbsorbFile | hgext/absorb.py:327-381 | building, deriving and applying on the jump program itself end in the final contents of which the above is proved; no line is missing |
| AbsorbOverlay.Overlay | hgext/absorb.py:1004-1008 | in whatever order the hunks come, several at one line included, splicing them in reverse gives the file with all of them substituted at once |
| AbsorbOverlay.SamePlaceByText | hgext/absorb.py:1004 | hunks of one place and length come in the order of their text |
| AbsorbOverlay.SortedIsUnique | hgext/absorb.py:1004 | there is one sorted order, so the order of arrival makes no difference |
| FixGraph.GetBaseCtxs | hgext/fix.py:626-653 | without `--base`, the bases of each revision are exactly the revisions outside the set reached by a parent path whose earlier nodes are inside it; with it, the given set, or the null revision if that is empty; never none |
| FixGraph.BasesFromParents | hgext/fix.py:648-652 | one revision: its parents' bases, or the parent itself where it has none, are all the bases and no others |
| FixGraph.AffectedByParent | hgext/fix.py:814-819 | a revision is affected exactly if it is changed or has an affected parent |
| FixGraph.ReplacedAreTheAffected | hgext/fix.py:783-856 | in topological order exactly those revisions are replaced that become other ones and are changed or have such a replaced one for an ancestor; exactly the changed ones and those with a replaced parent are created anew, on the images of their parents |
| FixGraph.NoReplacedParentIsKept | hgext/fix.py:790-806 | if no revision becomes another one that is being fixed, nothing is left on a replaced parent |
| FixGraph.OnReplacedParentIff | hgext/fix.py:790-806 | a revision created anew is on a replaced one exactly if a parent of it was replaced by a revision that is replaced itself |
| FixGraph.ReplacedParentKept | hgext/fix.py:803-806 | three revisions of which the last is put on a replaced one |
| FixRanges.UnionRanges | hgext/fix.py:544-576 | covers exactly what the ranges cover, sorted, with a gap between neighbours |
| FixRanges.SeparatedIsCanonical | hgext/fix.py:544-576 | two such lists that cover the same are the same |
| FixRanges.DiffLineRanges | hgext/fix.py:618-623 | the ranges cover exactly the changed lines, and none is empty |
| FixRanges.LineRanges | hgext/fix.py:500-526 | the ranges cover exactly the lines changed against at least one base |
| FixRanges.LinesOutsideAreInEveryBase | hgext/fix.py:509-510 | a line outside all ranges is a line of every base |
| FixPipeline.GroupWork | hgext/fix.py:410-430 | the work is counted by revision and grouped by file revision, bases and path |
| FixPipeline.GetWorkQueue | hgext/fix.py:384-443 | each selected file of a revision that is neither a link nor too large is in exactly one item, once, and items are for nothing else; two files share an item exactly if path, file revision and bases agree; items strictly ordered by source and path; each counter is the number of files of its revision |
| FixPipeline.FilesServed | hgext/fix.py:410-434 | the same of any queue that has one item per group |
| FixPipeline.AllWorkHolds | hgext/fix.py:410-430 | the work found is that of the eligible files, each with its file revision and the bases of its revision |
| FixPipeline.OneItemPerSource | hgext/fix.py:431-443 | no two items share source and path, so the sort never compares further |
| FixPipeline.EachFileInOneItem | hgext/fix.py:410-434 | no revision and path is lost or duplicated by the grouping |
| FixPipeline.DeliveredAnswersWork | hgext/fix.py:284-307 | whatever content the workers make of an item, handed out for each of its revisions and arriving in any order, each file of each revision is answered exactly once and nothing else is |
| FixPipeline.CountsAreOutstanding | hgext/fix.py:411-430 | the counter of each revision is the number of results to come for it |
| FixPipeline.FilesOfHolds | hgext/fix.py:331-332 | a revision's data is exactly the new contents that arrived for it |
| FixPipeline.ArrivalOrderIsIrrelevant | hgext/fix.py:327-356 | the contents a revision is committed with do not depend on the order of arrival |
| FixPipeline.FixRun.Receive | hgext/fix.py:327-343 | one more result: the counters still are the results outstanding |
| FixPipeline.FixRun.Commit | hgext/fix.py:348-356 | a revision is committed only when nothing is outstanding for it, with all of its contents, and its data is dropped; the working directory counts as written exactly if it has new contents |
| FixPipeline.FixRun.Consume | hgext/fix.py:323-356 | for any arrival order of at least one result every revision is committed exactly once, in ascending order |
| FixPipeline.Fix | hgext/fix.py:239-356 | queue, workers, consuming and rewriting together: every eligible file is answered once; with any at all, every revision is dealt with once, in order, with exactly its new contents; without, nothing is |
| FixPipeline.AllReplacedAreTheAffected | hgext/fix.py:783-856 | the same for all revisions of a run: which are replaced, which are created anew and on which parents |
| FastExport.ContentsAreMarked | hgext/fastexport.py:94-107 | after an exported changeset all of its file contents have marks, also those it inherits |
| FastExport.StreamNeverDangles | hgext/fastexport.py:79-149 | whatever the marks file held, marks number the new ids consecutively, and every `from`, `merge` and `M` names the right id by a mark defined before |
| FastExport.TreeRebuilt | hgext/fastexport.py:131-146 | the changes of a commit, laid over the manifest of its first parent, make its manifest, with removals, contents and flags, for merges too |
| FastExport.ImportRebuilds | hgext/fastexport.py:79-149 | importing an exported stream, on top of what was imported before, gives every changeset with a mark its own manifest and its own parents |
| FastExport.ExportedComesBack | hgext/fastexport.py:79-149 | from an empty importer every exported changeset comes back |
| FastExport.StreamsAppend | hgext/fastexport.py:194-209 | what was written before does not affect what is written next |
| FastExport.ExportInTwoGoes | hgext/fastexport.py:203-209 | exporting in two goes emits the stream of one go, and stops on a missing mark in both cases or in neither |
| FastExport.ExportedIffParentsAre | hgext/fastexport.py:82-92 | a revision is exported exactly if all its parents are |
| FastExport.MarkedContents | hgext/fastexport.py:94-107 | of the contents exactly those marked before and those listed by an exported changeset have marks |
| FastExport.RunsIff | hgext/fastexport.py:79-149 | an export goes through exactly if each file that an exported changeset has to name has its content in the marks file, or listed by a changeset exported up to then |
| FastExport.MissingContentStops | hgext/fastexport.py:127-147 | a merge whose parents are in the marks file without their files stops the export |
| FastExport.CompleteMarksRun | hgext/fastexport.py:79-149 | from marks that are complete it goes through, and leaves complete marks |
| FastExport.NumberingIsUnique | hgext/fastexport.py:112-113 | the marks determine the order of ids and the order the marks |
| FastExport.ImportMarks | hgext/fastexport.py:196-202 | the ids in order, or failure on a malformed or repeated one |
| FastExport.ExportMarks | hgext/fastexport.py:214-219 | the ids by their marks, which importing turns into the same marks |
| FastExport.Exporter.ExportCommit | hgext/fastexport.py:79-149 | one changeset extends marks and stream as specified, or leaves both alone, or stops at a content without a mark |
| FastExport.FastExport | hgext/fastexport.py:172-219 | from a well formed marks file writes the specified stream and the marks of all ids known then; a malformed one makes it fail and write nothing; it stops early, and writes no marks, exactly if a mark is missing |
| FastExport.ExportIncrementally | hgext/fastexport.py:172-219 | an export split by a marks file emits what a single export emits |
| ImportChecker.Scan | contrib/import-checker.py:605-612 | the search stays a search by levels, and raises only with a closed walk back to the module |
| ImportChecker.NoShortClosedWalk | contrib/import-checker.py:606 | no closed walk is shorter than the level reached |
| ImportChecker.CheckMod | contrib/import-checker.py:600-612 | raises exactly if the module is on a closed walk of fewer than 1000 imports, so with fewer than 1000 modules on any; the path is a shortest one and repeats no module |
| ImportChecker.RotationsAgree | contrib/import-checker.py:615-623 | all rotations of a cycle are reported alike |
| ImportChecker.RotateCycleIsClosedWalk | contrib/import-checker.py:615-623 | what is reported leads from the first module back to it |
| ImportChecker.FindCycles | contrib/import-checker.py:626-646 | none is reported exactly if no module is on a closed walk of fewer than 1000 imports, so with fewer than 1000 modules exactly if the graph is acyclic; for every module on such a walk a shortest one is reported, and every reported cycle is a shortest one for some module, canonical and without repetition |

## Left out

* Repository access, locks, transactions, hooks, bundles, bookmarks, phases, dirstate, merging,
  prompts, editors and progress: replaced by abstract commits, fresh ids and stated conditions.
* Histedit: the legacy pickle state format, summary templates, rule-line truncation, the
  `singletransaction` option (it decides what is rolled back on an error), commit messages, dates
  and users of folded commits, `_finishhistedit`'s cleanup of the mapping.
* Reorder screen: rendering; a patch is the rule it belongs to, without its text. Rules are held as a
  structure of lists (file sets, positions, conflict lists of rule numbers) in place of objects
  that refer to each other.
* HisteditStateFile.RuleNode: a changeset name is looked up in a given map, in place of the
  repository's lookup; a full hexadecimal node is its own name.
* Linelog: the binary encoding, `replacelines_vec`, the errors for line numbers out of range.
* Linelog.LineLog.ReplaceLines: deletions over lines newer than the revision, and calls while the
  cached annotation is of an older revision, are left out; insertions before newer lines are
  treated by `InsertionIsSeenIff`.
* Absorb: `--edit-lines`, the display of changes, building the stack and its file contexts,
  committing the amended stack, renames. Contents are sequences of lines; joining them is not
  modelled. `uniq` and file revisions shared by commits are not either.
* Fix: the subprocess that fixes a file, its metadata and its configuration; `getbasepaths` and
  copies; the working directory's new parent after its parent was replaced.
* Fast export: users, dates, branch names, descriptions and file data are carried by ids only;
  changes are a map from paths, where the source writes them sorted.
* FastExport.ImportMarks: lines come already split and stripped.
* Import checker: the scanning of Python sources; module names are ranks in their alphabetical
  order, and a reported cycle is the sequence of modules in place of the joined text.
