/**
 The reorder model behind the curses interface of histedit: the rules in their present order
 and, for each rule, the incrementally kept list of rules it may conflict with. A rule is
 named by its original position.
 */
module HisteditReorder {
  import opened Lists
  import opened HisteditSession

  /** `pos[r]` is the position of rule `r`, `conflicts[r]` its list of conflicts. */
  datatype Board = Board(files: seq<set<string>>, rules: seq<nat>, pos: seq<nat>, conflicts: seq<seq<nat>>)

  /** The rules are a permutation, and every rule knows its position. */
  ghost predicate Consistent(b: Board) {
    && |b.rules| == |b.files| && |b.pos| == |b.files| && |b.conflicts| == |b.files|
    && (forall i :: 0 <= i < |b.rules| ==> b.rules[i] < |b.pos| && b.pos[b.rules[i]] == i)
    && (forall r :: 0 <= r < |b.pos| ==> b.pos[r] < |b.rules| && b.rules[b.pos[r]] == r)
  }

  predicate Share(a: set<string>, b: set<string>) {
    a * b != {}
  }

  /** Rule `o` now comes after `r` although it was before it, and they touch a common file. */
  predicate Inverted(b: Board, r: nat, o: nat)
    requires r < |b.files| && |b.pos| == |b.files|
  {
    o < |b.files| && b.pos[o] > b.pos[r] && o <= r && Share(b.files[o], b.files[r])
  }

  /** The list of `r` holds its inversions, each exactly once. */
  ghost predicate ExactFor(b: Board, r: nat)
    requires r < |b.files| && |b.pos| == |b.files| && |b.conflicts| == |b.files|
  {
    Distinct(b.conflicts[r]) && forall o: nat :: o in b.conflicts[r] <==> Inverted(b, r, o)
  }

  ghost predicate Exact(b: Board)
    requires Consistent(b)
  {
    forall r :: 0 <= r < |b.files| ==> ExactFor(b, r)
  }

  /** An exact list names the rules that were before this one, are behind it now and touch a file that it touches. */
  lemma ExactListMeans(b: Board, r: nat, o: nat)
    requires Consistent(b) && r < |b.files| && o < |b.files| && ExactFor(b, r)
    ensures o in b.conflicts[r] <==>
              o < r && b.pos[r] < b.pos[o] && exists f :: f in b.files[o] && f in b.files[r]
  {
    if f :| f in b.files[o] && f in b.files[r] {
      assert f in b.files[o] * b.files[r];
    }
  }

  // ---------------------------------------------------------------------------------------
  // checkconflicts and swap

  /** `list.remove(x)`, which drops the first occurrence. */
  function Remove(l: seq<nat>, x: nat): seq<nat> {
    if l == [] then [] else if l[0] == x then l[1..] else [l[0]] + Remove(l[1..], x)
  }

  /** `histeditrule.checkconflicts` */
  function CheckConflicts(b: Board, l: seq<nat>, r: nat, o: nat): seq<nat>
    requires r < |b.files| && o < |b.files| && |b.pos| == |b.files|
  {
    if Inverted(b, r, o) then l + [o] else Remove(l, o)
  }

  function Moved(b: Board, i: nat, j: nat): Board
    requires i < |b.rules| && j < |b.rules| && |b.pos| == |b.rules|
    requires b.rules[i] < |b.pos| && b.rules[j] < |b.pos|
  {
    b.(rules := b.rules[i := b.rules[j]][j := b.rules[i]], pos := b.pos[b.rules[i] := j][b.rules[j] := i])
  }

  /** What one turn of the loop in `swap` does to the lists of the two moved rules. */
  function CheckBoth(b: Board, c: seq<seq<nat>>, first: nat, second: nat, o: nat): (r: seq<seq<nat>>)
    requires first < |c| && second < |c| && |b.files| == |b.pos| == |c| && o < |b.files|
    ensures |r| == |c|
  {
    var d := c[first := CheckConflicts(b, c[first], first, o)];
    d[second := CheckConflicts(b, d[second], second, o)]
  }

  /** What the loop of `swap` does from position `lo` on. */
  function CheckRange(b: Board, c: seq<seq<nat>>, first: nat, second: nat, lo: nat, hi: nat): (r: seq<seq<nat>>)
    requires lo <= hi <= |b.rules| && first < |c| && second < |c|
    requires |b.files| == |b.pos| == |c| && forall i :: 0 <= i < |b.rules| ==> b.rules[i] < |b.files|
    ensures |r| == |c|
    decreases hi - lo
  {
    if lo == hi then c
    else CheckRange(b, CheckBoth(b, c, first, second, b.rules[lo]), first, second, lo + 1, hi)
  }

  /** The loop of `swap`, over the rules between the two positions. */
  method CheckBetween(b: Board, c: seq<seq<nat>>, first: nat, second: nat, lo: nat, hi: nat)
    returns (conflicts: seq<seq<nat>>)
    requires lo <= hi <= |b.rules| && first < |c| && second < |c|
    requires |b.files| == |b.pos| == |c| && forall i :: 0 <= i < |b.rules| ==> b.rules[i] < |b.files|
    ensures conflicts == CheckRange(b, c, first, second, lo, hi)
  {
    conflicts := c;
    for r := lo to hi
      invariant |conflicts| == |c|
      invariant CheckRange(b, conflicts, first, second, r, hi) == CheckRange(b, c, first, second, lo, hi)
    {
      conflicts := conflicts[first := CheckConflicts(b, conflicts[first], first, b.rules[r])];
      conflicts := conflicts[second := CheckConflicts(b, conflicts[second], second, b.rules[r])];
    }
  }

  function Min(i: nat, j: nat): nat { if i < j then i else j }

  function Max(i: nat, j: nat): nat { if i < j then j else i }

  lemma MovedIsConsistent(b: Board, i: nat, j: nat)
    requires Consistent(b) && i < |b.rules| && j < |b.rules|
    ensures Consistent(Moved(b, i, j))
  {
    var m := Moved(b, i, j);
    assert b.rules[i] == b.rules[j] ==> i == j;
  }

  function Swapped(b: Board, i: nat, j: nat): Board
    requires Consistent(b) && i < |b.rules| && j < |b.rules|
  {
    MovedIsConsistent(b, i, j);
    var m := Moved(b, i, j);
    m.(conflicts := CheckRange(m, b.conflicts, m.rules[j], m.rules[i], Min(i, j), Max(i, j) + 1))
  }

  // ---------------------------------------------------------------------------------------
  // What a swap leaves behind

  lemma {:induction false} RemoveFromDistinct(l: seq<nat>, x: nat)
    requires Distinct(l)
    ensures Distinct(Remove(l, x))
    ensures forall o :: o in Remove(l, x) <==> o in l && o != x
  {
    if l != [] {
      assert forall o :: o in l <==> o == l[0] || o in l[1..];
      RemoveFromDistinct(l[1..], x);
      if l[0] != x {
        var rest := Remove(l[1..], x);
        assert l[0] !in rest;
      }
    }
  }

  lemma CheckOne(b: Board, l: seq<nat>, r: nat, o: nat)
    requires r < |b.files| && o < |b.files| && |b.pos| == |b.files|
    requires Distinct(l) && (Inverted(b, r, o) ==> o !in l)
    ensures Distinct(CheckConflicts(b, l, r, o))
    ensures forall x :: x in CheckConflicts(b, l, r, o) <==> if x == o then Inverted(b, r, o) else x in l
  {
    RemoveFromDistinct(l, o);
  }

  /** What a moved rule lists: new inversions where it was checked, old ones elsewhere. */
  predicate ExpectedAt(before: Board, after: Board, r: nat, lo: nat, hi: nat, o: nat)
    requires r < |before.files| && after.files == before.files
    requires |before.pos| == |before.files| && |after.pos| == |before.files|
  {
    o < |after.files| && if lo <= after.pos[o] < hi then Inverted(after, r, o) else Inverted(before, r, o)
  }

  ghost predicate HalfChecked(before: Board, after: Board, l: seq<nat>, r: nat, lo: nat, hi: nat)
    requires r < |before.files| && after.files == before.files
    requires |before.pos| == |before.files| && |after.pos| == |before.files|
  {
    Distinct(l) && forall o: nat :: o in l <==> ExpectedAt(before, after, r, lo, hi, o)
  }

  /** The next check of a moved rule. No rule is inverted against it both before and after the move. */
  lemma CheckStep(b: Board, i: nat, j: nat, l: seq<nat>, r: nat, at: nat)
    requires Consistent(b) && i < |b.rules| && j < |b.rules|
    requires Min(i, j) <= at <= Max(i, j) && (r == b.rules[i] || r == b.rules[j])
    requires HalfChecked(b, Moved(b, i, j), l, r, Min(i, j), at)
    ensures var m := Moved(b, i, j);
            Consistent(m) && HalfChecked(b, m, CheckConflicts(m, l, r, m.rules[at]), r, Min(i, j), at + 1)
  {
    MovedIsConsistent(b, i, j);
    var m := Moved(b, i, j);
    var o := m.rules[at];
    assert m.pos[o] == at;
    assert Inverted(m, r, o) ==> !Inverted(b, r, o);
    CheckOne(m, l, r, o);
    forall x: nat
      ensures x in CheckConflicts(m, l, r, o) <==> ExpectedAt(b, m, r, Min(i, j), at + 1, x)
    {
      if x != o && x < |m.files| {
        assert m.pos[x] != at;
      }
    }
  }

  /** Halfway through the loop of `swap`: both moved rules half checked, all others untouched. */
  ghost predicate SwapProgress(b: Board, i: nat, j: nat, c: seq<seq<nat>>, hi: nat)
    requires Consistent(b) && i < |b.rules| && j < |b.rules| && |c| == |b.files|
  {
    var m := Moved(b, i, j);
    && HalfChecked(b, m, c[b.rules[i]], b.rules[i], Min(i, j), hi)
    && HalfChecked(b, m, c[b.rules[j]], b.rules[j], Min(i, j), hi)
    && forall r :: 0 <= r < |c| && r != b.rules[i] && r != b.rules[j] ==> c[r] == b.conflicts[r]
  }

  /** A board and two places to be swapped. */
  datatype Places = Places(b: Board, i: nat, j: nat)

  type Swapping = s: Places | Consistent(s.b) && s.i < |s.b.rules| && s.j < |s.b.rules| && s.i != s.j
    witness Places(Board([{}, {}], [0, 1], [0, 1], [[], []]), 0, 1)

  /** What is left of the loop completes the check of both moved rules. */
  lemma {:induction false} CheckRangeProgress(s: Swapping, m: Board, c: seq<seq<nat>>, lo: nat, hi: nat)
    requires m == Moved(s.b, s.i, s.j) && Consistent(m) && |c| == |s.b.files|
    requires Min(s.i, s.j) <= lo <= hi <= Max(s.i, s.j) + 1 && SwapProgress(s.b, s.i, s.j, c, lo)
    ensures SwapProgress(s.b, s.i, s.j, CheckRange(m, c, s.b.rules[s.i], s.b.rules[s.j], lo, hi), hi)
    decreases hi - lo
  {
    if lo < hi {
      ProgressStep(s, m, c, lo);
      CheckRangeProgress(s, m, CheckBoth(m, c, s.b.rules[s.i], s.b.rules[s.j], m.rules[lo]), lo + 1, hi);
    }
  }

  lemma NothingChecked(s: Swapping)
    requires Exact(s.b)
    ensures SwapProgress(s.b, s.i, s.j, s.b.conflicts, Min(s.i, s.j))
  {
    assert ExactFor(s.b, s.b.rules[s.i]) && ExactFor(s.b, s.b.rules[s.j]);
  }

  lemma ProgressStep(s: Swapping, m: Board, c: seq<seq<nat>>, at: nat)
    requires m == Moved(s.b, s.i, s.j) && Consistent(m) && |c| == |s.b.files|
    requires Min(s.i, s.j) <= at <= Max(s.i, s.j) && SwapProgress(s.b, s.i, s.j, c, at)
    ensures SwapProgress(s.b, s.i, s.j, CheckBoth(m, c, s.b.rules[s.i], s.b.rules[s.j], m.rules[at]), at + 1)
  {
    CheckStep(s.b, s.i, s.j, c[s.b.rules[s.i]], s.b.rules[s.i], at);
    CheckStep(s.b, s.i, s.j, c[s.b.rules[s.j]], s.b.rules[s.j], at);
  }

  /** No rule between the two swapped positions shares a file with a moved rule it was inverted with or now is. */
  ghost predicate MiddleUnaffected(b: Board, i: nat, j: nat)
    requires Consistent(b) && i < |b.rules| && j < |b.rules|
  {
    forall k :: Min(i, j) < k < Max(i, j) ==>
      var m, x, y := b.rules[k], b.rules[i], b.rules[j];
      && !(x < m && Share(b.files[x], b.files[m]))
      && !(y < m && Share(b.files[y], b.files[m]))
  }

  /** After a swap the two moved rules list exactly their inversions. */
  lemma MovedRulesStayExact(b: Board, i: nat, j: nat)
    requires Consistent(b) && Exact(b) && i < |b.rules| && j < |b.rules| && i != j
    ensures Consistent(Swapped(b, i, j))
    ensures ExactFor(Swapped(b, i, j), b.rules[i]) && ExactFor(Swapped(b, i, j), b.rules[j])
    ensures forall r :: 0 <= r < |b.files| && r != b.rules[i] && r != b.rules[j] ==>
              Swapped(b, i, j).conflicts[r] == b.conflicts[r]
  {
    MovedIsConsistent(b, i, j);
    NothingChecked(Places(b, i, j));
    CheckRangeProgress(Places(b, i, j), Moved(b, i, j), b.conflicts, Min(i, j), Max(i, j) + 1);
    var s := Swapped(b, i, j);
    forall r, o: nat | (r == b.rules[i] || r == b.rules[j]) && o < |b.files|
      ensures ExpectedAt(b, Moved(b, i, j), r, Min(i, j), Max(i, j) + 1, o) <==> Inverted(s, r, o)
    {
    }
  }

  /** A rule that is not moved stays exact exactly if neither moved rule passes it as an inversion. */
  lemma UnmovedRuleExactIff(b: Board, i: nat, j: nat, r: nat)
    requires Consistent(b) && Exact(b) && i < |b.rules| && j < |b.rules| && i != j
    requires r < |b.files| && r != b.rules[i] && r != b.rules[j]
    ensures Consistent(Swapped(b, i, j))
    ensures ExactFor(Swapped(b, i, j), r) <==>
              !(Min(i, j) < b.pos[r] < Max(i, j)
                && exists o :: o in {b.rules[i], b.rules[j]} && o < r && Share(b.files[o], b.files[r]))
  {
    MovedRulesStayExact(b, i, j);
    var s := Swapped(b, i, j);
    assert ExactFor(b, r);
    var x, y := b.rules[i], b.rules[j];
    assert forall o: nat :: o != x && o != y ==> (Inverted(s, r, o) <==> Inverted(b, r, o));
    assert ExactFor(s, r) <==> (Inverted(s, r, x) <==> Inverted(b, r, x)) && (Inverted(s, r, y) <==> Inverted(b, r, y));
  }

  /**
   A swap leaves all lists exact exactly if it passes no unmoved rule as an inversion; swapping
   neighbours always does.
   */
  lemma SwapStaysExactIff(b: Board, i: nat, j: nat)
    requires Consistent(b) && Exact(b) && i < |b.rules| && j < |b.rules|
    ensures Consistent(Swapped(b, i, j))
    ensures Exact(Swapped(b, i, j)) <==> MiddleUnaffected(b, i, j)
    ensures Max(i, j) <= Min(i, j) + 1 ==> Exact(Swapped(b, i, j))
  {
    MovedIsConsistent(b, i, j);
    var s := Swapped(b, i, j);
    if i == j {
      SwapInPlace(b, i);
    } else {
      MovedRulesStayExact(b, i, j);
      forall r | 0 <= r < |b.files| && r != b.rules[i] && r != b.rules[j]
        ensures ExactFor(s, r) <==> (Min(i, j) < b.pos[r] < Max(i, j) ==>
                  forall o :: o in {b.rules[i], b.rules[j]} ==> !(o < r && Share(b.files[o], b.files[r])))
      {
        UnmovedRuleExactIff(b, i, j, r);
      }
      if Exact(s) {
        forall k | Min(i, j) < k < Max(i, j)
          ensures var m, x, y := b.rules[k], b.rules[i], b.rules[j];
                  !(x < m && Share(b.files[x], b.files[m])) && !(y < m && Share(b.files[y], b.files[m]))
        {
          assert ExactFor(s, b.rules[k]);
        }
      }
      if MiddleUnaffected(b, i, j) {
        forall r | 0 <= r < |b.files|
          ensures ExactFor(s, r)
        {
          assert b.rules[b.pos[r]] == r;
        }
      }
    }
  }

  lemma SwapInPlace(b: Board, i: nat)
    requires Consistent(b) && Exact(b) && i < |b.rules|
    ensures Swapped(b, i, i) == b
  {
    var r := b.rules[i];
    assert Moved(b, i, i) == b;
    assert ExactFor(b, r);
    RemoveAbsent(b.conflicts[r], r);
    assert CheckBoth(b, b.conflicts, r, r, r) == b.conflicts;
    assert CheckRange(b, b.conflicts, r, r, i, i + 1) == b.conflicts;
  }

  lemma {:induction false} RemoveAbsent(l: seq<nat>, x: nat)
    requires x !in l
    ensures Remove(l, x) == l
  {
    if l != [] {
      RemoveAbsent(l[1..], x);
    }
  }

  // ---------------------------------------------------------------------------------------
  // Runs of events

  function Start(files: seq<set<string>>): (b: Board)
    ensures Consistent(b)
  {
    Board(files, seq(|files|, i => i), seq(|files|, i => i), seq(|files|, i => []))
  }

  lemma StartIsExact(files: seq<set<string>>)
    ensures Exact(Start(files))
  {
  }

  /** Whatever is swapped, the rules stay a permutation in which every rule knows its position. */
  lemma SwapStaysConsistent(b: Board, i: nat, j: nat)
    requires Consistent(b) && i < |b.rules| && j < |b.rules|
    ensures Consistent(Swapped(b, i, j)) && Swapped(b, i, j).files == b.files
    ensures multiset(Swapped(b, i, j).rules) == multiset(b.rules)
  {
    MovedIsConsistent(b, i, j);
  }

  ghost predicate InRange(b: Board, swaps: seq<(nat, nat)>) {
    forall k :: 0 <= k < |swaps| ==> swaps[k].0 < |b.files| && swaps[k].1 < |b.files|
  }

  ghost function AfterSwaps(b: Board, swaps: seq<(nat, nat)>): (r: Board)
    requires Consistent(b) && InRange(b, swaps)
    ensures Consistent(r) && r.files == b.files
  {
    if swaps == [] then b
    else
      var c := AfterSwaps(b, swaps[..|swaps| - 1]);
      var last := swaps[|swaps| - 1];
      SwapStaysConsistent(c, last.0, last.1);
      Swapped(c, last.0, last.1)
  }

  /** After any number of one-position moves every conflict list is exact. */
  lemma {:induction false} NeighbourMovesStayExact(files: seq<set<string>>, swaps: seq<(nat, nat)>)
    requires InRange(Start(files), swaps)
    requires forall k :: 0 <= k < |swaps| ==> Max(swaps[k].0, swaps[k].1) <= Min(swaps[k].0, swaps[k].1) + 1
    ensures Exact(AfterSwaps(Start(files), swaps))
  {
    StartIsExact(files);
    if swaps != [] {
      NeighbourMovesStayExact(files, swaps[..|swaps| - 1]);
      var last := swaps[|swaps| - 1];
      SwapStaysExactIff(AfterSwaps(Start(files), swaps[..|swaps| - 1]), last.0, last.1);
    }
  }

  /** A distant swap, as 'goto' makes with a rule selected, can leave a list short of an inversion. */
  lemma DistantSwapMissesInversion()
    ensures var b := Start([{"f"}, {"f"}, {"f"}]);
            && Consistent(Swapped(b, 0, 2))
            && Inverted(Swapped(b, 0, 2), 1, 0)
            && 0 !in Swapped(b, 0, 2).conflicts[1]
  {
    var b := Start([{"f"}, {"f"}, {"f"}]);
    StartIsExact(b.files);
    MovedRulesStayExact(b, 0, 2);
    assert "f" in b.files[0] * b.files[1];
  }

  datatype Mode = Init | Rules | Patch | Help

  /** What the loop around `event` is asked to do. */
  datatype Signal = Quit | RunHistedit | PageDown | PageUp | LineDown | LineUp | Resize

  /** What a key stands for. */
  datatype Key = Up | Down | MoveUp | MoveDown | Select | Digit(n: nat) | SetAction(verb: Verb)
    | Cycle(next: bool) | Toggle(mode: Mode) | Send(signal: Signal) | Nothing

  const KEY_LIST: seq<Verb> := [Pick, Edit, Fold, Drop, Mess, Roll]

  function GlobalKey(ch: string): Key {
    match ch
    case "h" => Cycle(true)
    case "KEY_RIGHT" => Cycle(true)
    case "l" => Cycle(false)
    case "KEY_LEFT" => Cycle(false)
    case "q" => Send(Quit)
    case "c" => Send(RunHistedit)
    case "C" => Send(RunHistedit)
    case "v" => Toggle(Patch)
    case "?" => Toggle(Help)
    case _ => Nothing
  }

  function RulesKey(ch: string): Key {
    match ch
    case "d" => SetAction(Drop)
    case "e" => SetAction(Edit)
    case "f" => SetAction(Fold)
    case "m" => SetAction(Mess)
    case "p" => SetAction(Pick)
    case "r" => SetAction(Roll)
    case " " => Select
    case "j" => Down
    case "k" => Up
    case "KEY_DOWN" => Down
    case "KEY_UP" => Up
    case "J" => MoveDown
    case "K" => MoveUp
    case "KEY_NPAGE" => MoveDown
    case "KEY_PPAGE" => MoveUp
    case _ => if |ch| == 1 && '0' <= ch[0] <= '9' then Digit((ch[0] as int - '0' as int) as nat) else GlobalKey(ch)
  }

  function PatchKey(ch: string): Key {
    match ch
    case " " => Send(PageDown)
    case "KEY_NPAGE" => Send(PageDown)
    case "KEY_PPAGE" => Send(PageUp)
    case "j" => Send(LineDown)
    case "k" => Send(LineUp)
    case "KEY_DOWN" => Send(LineDown)
    case "KEY_UP" => Send(LineUp)
    case "J" => Down
    case "K" => Up
    case _ => GlobalKey(ch)
  }

  /** `KEYTABLE`: the keys of the mode, then those of all modes. */
  function LookUp(mode: Mode, ch: string): (key: Key)
    ensures key.SetAction? ==> key.verb in KEY_LIST
    ensures key.Toggle? ==> key.mode == Patch || key.mode == Help
  {
    if ch == "KEY_RESIZE" then Send(Resize)
    else match mode
         case Rules => RulesKey(ch)
         case Patch => PatchKey(ch)
         case _ => GlobalKey(ch)
  }

  function IndexOf(v: Verb): (i: nat)
    requires v in KEY_LIST
    ensures i < |KEY_LIST| && KEY_LIST[i] == v
  {
    match v
    case Pick => 0
    case Edit => 1
    case Fold => 2
    case Drop => 3
    case Mess => 4
    case _ => 5
  }

  function Cycled(v: Verb, next: bool): (w: Verb)
    requires v in KEY_LIST
    ensures w in KEY_LIST
  {
    KEY_LIST[(IndexOf(v) + if next then 1 else -1) % |KEY_LIST|]
  }

  /** Cycling one way undoes cycling the other way. */
  lemma CycledBack(v: Verb, next: bool)
    requires v in KEY_LIST
    ensures Cycled(Cycled(v, next), !next) == v
  {
    assert IndexOf(Cycled(v, next)) == (IndexOf(v) + if next then 1 else -1) % |KEY_LIST|;
  }

  /** The actions in the order in which cycling visits them, the first one again after the last. */
  lemma CycleOrder(i: nat)
    requires i < |KEY_LIST|
    ensures Cycled(KEY_LIST[i], true) == if i + 1 < |KEY_LIST| then KEY_LIST[i + 1] else KEY_LIST[0]
    ensures Cycled(KEY_LIST[i], false) == if i > 0 then KEY_LIST[i - 1] else KEY_LIST[|KEY_LIST| - 1]
  {
    assert IndexOf(KEY_LIST[i]) == i;
  }

  // ---------------------------------------------------------------------------------------
  // Modes

  /** The mode, and the one before. */
  datatype Modes = Modes(mode: Mode, prev: Mode)

  /** `change_mode`, for a key that opens a view or goes back from it. */
  function Pressed(m: Modes, key: Key): Modes {
    if key.Toggle? then Modes(if m.mode != key.mode then key.mode else m.prev, m.mode) else m
  }

  function PressedAll(m: Modes, chs: seq<string>): Modes
    decreases |chs|
  {
    if chs == [] then m else PressedAll(Pressed(m, LookUp(m.mode, chs[0])), chs[1..])
  }

  /** The rules can be brought back by some keys exactly if they are shown or were shown just before. */
  lemma RulesComeBackIff(m: Modes)
    requires m.mode != Init
    ensures (exists chs :: PressedAll(m, chs).mode == Rules) <==> m.mode == Rules || m.prev == Rules
  {
    if m.mode == Rules {
      assert PressedAll(m, []).mode == Rules;
    } else if m.prev == Rules {
      OneKey(m, "v");
      OneKey(m, "?");
      assert PressedAll(m, ["v"]).mode == Rules || PressedAll(m, ["?"]).mode == Rules;
    } else {
      forall chs
        ensures PressedAll(m, chs).mode != Rules
      {
        NoWayBack(m, chs);
      }
    }
  }

  lemma OneKey(m: Modes, ch: string)
    ensures PressedAll(m, [ch]) == Pressed(m, LookUp(m.mode, ch))
  {
    assert PressedAll(Pressed(m, LookUp(m.mode, ch)), [ch][1..]) == Pressed(m, LookUp(m.mode, ch));
  }

  lemma {:induction false} NoWayBack(m: Modes, chs: seq<string>)
    requires m.mode != Rules && m.prev != Rules
    ensures PressedAll(m, chs).mode != Rules
    decreases |chs|
  {
    if chs != [] {
      NoWayBack(Pressed(m, LookUp(m.mode, chs[0])), chs[1..]);
    }
  }

  /** The help opened over a patch never leads back to the rules, whatever keys follow. */
  lemma HelpOverPatchIsFinal(chs: seq<string>)
    ensures PressedAll(Modes(Rules, Init), ["v", "?"] + chs).mode != Rules
  {
    var m := Modes(Rules, Init);
    var keys := ["v", "?"] + chs;
    assert keys[0] == "v" && keys[1..][0] == "?" && keys[1..][1..] == chs;
    assert PressedAll(m, keys) == PressedAll(Modes(Patch, Rules), keys[1..]);
    assert PressedAll(Modes(Patch, Rules), keys[1..]) == PressedAll(Modes(Help, Patch), chs);
    NoWayBack(Modes(Help, Patch), chs);
  }

  /** Does the key take the rule under the cursor along? */
  predicate Carries(key: Key, selected: Option<nat>, count: nat) {
    key.MoveUp? || key.MoveDown?
    || (selected.Some? && (key.Up? || key.Down? || (key.Digit? && key.n < count <= 10)))
  }

  /** Where the key puts the cursor. */
  function Target(key: Key, b: Board, pos: nat): nat
    requires b.rules != [] && |b.pos| == |b.rules|
  {
    match key
    case Up => if pos == 0 then 0 else pos - 1
    case MoveUp => if pos == 0 then 0 else pos - 1
    case Down => Min(pos + 1, |b.rules| - 1)
    case MoveDown => Min(pos + 1, |b.rules| - 1)
    case Digit(n) => if n < |b.rules| <= 10 then b.pos[n] else pos
    case _ => pos
  }

  /** A key that takes the rule along by one place. */
  predicate MovesRule(key: Key, selected: bool) {
    key.MoveUp? || key.MoveDown? || (selected && (key.Up? || key.Down?))
  }

  /** The rule is at a new position, and all others are in the order they were in. */
  ghost predicate RuleMoved(b: Board, b': Board, i: nat, j: nat)
    requires Consistent(b) && Consistent(b') && |b.rules| == |b'.rules| && i < |b.rules| && j < |b.rules|
  {
    && b'.rules[j] == b.rules[i]
    && forall x, y :: 0 <= x < |b.pos| && 0 <= y < |b.pos| && x != b.rules[i] && y != b.rules[i] ==>
         (b'.pos[x] < b'.pos[y] <==> b.pos[x] < b.pos[y])
  }

  function OnePlaceOn(up: bool, pos: nat, count: nat): nat {
    if up then (if pos == 0 then 0 else pos - 1) else if pos + 1 >= count then pos else pos + 1
  }

  lemma MovedByKey(b: Board, b': Board, key: Key, selected: Option<nat>, pos: nat, i: nat, j: nat)
    requires Consistent(b) && pos < |b.rules| && i < |b.rules| && j < |b.rules| && MovesRule(key, selected.Some?)
    requires Max(i, j) <= Min(i, j) + 1
    requires b' == if Carries(key, selected, |b.files|) then Swapped(b, i, j) else b
    ensures Consistent(b') && |b'.rules| == |b.rules| && RuleMoved(b, b', i, j)
    ensures Target(key, b, pos) == OnePlaceOn(key.MoveUp? || key.Up?, pos, |b.rules|)
  {
    NeighbourMoved(b, i, j);
  }

  /** Two elements have changed places, and no other has moved. */
  ghost predicate Exchanged<T>(s: seq<T>, s': seq<T>, i: nat, j: nat) {
    && |s| == |s'| && i < |s| && j < |s| && s'[i] == s[j] && s'[j] == s[i]
    && forall k :: 0 <= k < |s| && k != i && k != j ==> s'[k] == s[k]
  }

  /** The keys that move a rule: by one place, or to that of the rule with a number. */
  predicate TakesRule(key: Key, selected: Option<nat>, count: nat) {
    MovesRule(key, selected.Some?) || (key.Digit? && key.n < count <= 10 && selected.Some?)
  }

  ghost predicate RulesAfter(key: Key, selected: Option<nat>, rules: seq<nat>, rules': seq<nat>, i: nat, j: nat) {
    if TakesRule(key, selected, |rules|) then Exchanged(rules, rules', i, j) else rules' == rules
  }

  /** A selection follows the rule, unless it is at position 0. */
  ghost function SelectedAfter(key: Key, selected: Option<nat>, count: nat, pos: nat, pos': nat): Option<nat> {
    if key.Select? then if selected == None then Some(pos) else None
    else if TakesRule(key, selected, count) && selected.Some? && selected.value != 0 then Some(pos')
    else selected
  }

  lemma SwapExchanges(b: Board, i: nat, j: nat)
    requires Consistent(b) && i < |b.rules| && j < |b.rules|
    ensures Exchanged(b.rules, Swapped(b, i, j).rules, i, j)
  {
  }

  /** Exchanging neighbours moves one of them and leaves the order of all others. */
  lemma NeighbourMoved(b: Board, i: nat, j: nat)
    requires Consistent(b) && i < |b.rules| && j < |b.rules| && Max(i, j) <= Min(i, j) + 1
    ensures Consistent(Swapped(b, i, j)) && |Swapped(b, i, j).rules| == |b.rules|
    ensures RuleMoved(b, Swapped(b, i, j), i, j)
  {
    SwapStaysConsistent(b, i, j);
    assert b.pos[b.rules[i]] == i && b.pos[b.rules[j]] == j;
  }

  lemma KeyEffects(b: Board, b': Board, key: Key, selected: Option<nat>, pos: nat, i: nat, j: nat)
    requires Consistent(b) && pos < |b.rules| && i < |b.rules| && j < |b.rules|
    requires MovesRule(key, selected.Some?) ==> Max(i, j) <= Min(i, j) + 1
    requires b' == if Carries(key, selected, |b.files|) then Swapped(b, i, j) else b
    ensures |b'.rules| == |b.rules| && RulesAfter(key, selected, b.rules, b'.rules, i, j)
    ensures b'.rules[j] == b.rules[i] <==> Carries(key, selected, |b.files|) || i == j
    ensures MovesRule(key, selected.Some?) ==>
              && Consistent(b') && RuleMoved(b, b', i, j)
              && Target(key, b, pos) == OnePlaceOn(key.MoveUp? || key.Up?, pos, |b.rules|)
  {
    StaysUnder(b, b', i, j, Carries(key, selected, |b.files|));
    SwapExchanges(b, i, j);
    if MovesRule(key, selected.Some?) {
      MovedByKey(b, b', key, selected, pos, i, j);
    }
  }

  predicate MovesCursor(key: Key, count: nat) {
    key.Up? || key.Down? || key.MoveUp? || key.MoveDown? || (key.Digit? && key.n < count <= 10)
  }

  // ---------------------------------------------------------------------------------------
  // What is seen

  /** The first rule shown, the first line of a patch shown, and the number of lines there is room for. */
  datatype Scroll = Scroll(rules: nat, patch: nat, height: nat)

  function FirstShown(first: nat, pos: nat, height: nat): nat {
    if pos < first then pos else if pos > first + height - 1 then pos - height + 1 else first
  }

  /** The scrolling of `move_cursor`. */
  function ScrolledTo(s: Scroll, mode: Mode, pos: nat): Scroll {
    Scroll(if mode == Rules then FirstShown(s.rules, pos, s.height) else s.rules, 0, s.height)
  }

  predicate Seen(s: Scroll, pos: nat) {
    s.rules <= pos < s.rules + s.height
  }

  /** The list of rules scrolls no further than it must to show the cursor. */
  lemma ScrollShows(s: Scroll, pos: nat, other: nat)
    requires s.height > 0
    ensures Seen(ScrolledTo(s, Rules, pos), pos)
    ensures Seen(Scroll(other, 0, s.height), pos) ==>
              Abs(ScrolledTo(s, Rules, pos).rules - s.rules) <= Abs(other - s.rules)
  {
  }

  function Abs(n: int): nat { if n < 0 then -n else n }

  /** The first line that `change_view` shows of a patch; a page is as long as there is room. */
  function ViewFrom(s: Scroll, delta: int, page: bool, lines: nat): nat
    requires s.height > 0
  {
    var last := ((lines - 1) / s.height) * s.height;
    var line := s.patch + delta * if page then s.height else 1;
    var from := if line < last then line else last;
    if from < 0 then 0 else from
  }

  /** Some line of a patch that has any stays in view. */
  lemma ViewStaysInside(s: Scroll, delta: int, page: bool, lines: nat)
    requires s.height > 0
    ensures lines > 0 ==> ViewFrom(s, delta, page, lines) < lines
    ensures lines == 0 ==> ViewFrom(s, delta, page, lines) == 0
  {
    PageStart(lines - 1, s.height);
  }

  /** A patch scrolls by what was asked for, unless that is before its start or behind the start of its last page. */
  lemma ViewMoves(s: Scroll, delta: int, page: bool, lines: nat)
    requires s.height > 0
    ensures var line := s.patch + delta * (if page then s.height else 1);
            0 <= line && line + s.height <= lines ==> ViewFrom(s, delta, page, lines) == line
  {
    PageEnd(lines - 1, s.height);
  }

  lemma PageEnd(n: int, height: nat)
    requires height > 0
    ensures n < (n / height) * height + height
  {
  }

  lemma PageStart(n: int, height: nat)
    requires height > 0
    ensures (n / height) * height <= n
  {
  }

  function SignalOf(key: Key): Option<Signal> {
    if key.Send? then Some(key.signal) else None
  }

  /** While a patch is shown no key moves the rule under the cursor unless it is selected. */
  lemma PatchKeys(ch: string)
    ensures var key := LookUp(Patch, ch); !key.MoveUp? && !key.MoveDown? && !key.Digit?
  {
  }

  lemma StaysUnder(b: Board, b': Board, i: nat, j: nat, carried: bool)
    requires Consistent(b) && i < |b.rules| && j < |b.rules|
    requires b' == if carried then Swapped(b, i, j) else b
    ensures b'.rules[j] == b.rules[i] <==> carried || i == j
  {
  }

  /** `_chistedit_state`: the board, the cursor and the selection, both in display order. */
  class ReorderState {
    const files: seq<set<string>>
    const laterOnTop: bool
    var rules: seq<nat>
    var positions: seq<nat>
    var conflicts: seq<seq<nat>>
    var actions: seq<Verb>
    var pos: nat
    var selected: Option<nat>
    var modes: Modes
    var scroll: Scroll
    var patch: Option<nat>

    function View(): Board
      reads this
    {
      Board(files, rules, positions, conflicts)
    }

    ghost predicate Valid()
      reads this
    {
      && Consistent(View()) && |actions| == |files| && pos < |files|
      && (forall v :: v in actions ==> v in KEY_LIST)
    }

    /** The cursor is among the rules shown. */
    predicate CursorSeen()
      reads this
    {
      modes.mode == Rules ==> Seen(scroll, pos)
    }

    /** A patch that is shown is that of the rule under the cursor. */
    predicate PatchCurrent()
      reads this
      requires pos < |rules|
    {
      modes.mode == Patch ==> patch == Some(rules[RulePos(pos)])
    }

    /** The screen as the loop shows it first. */
    constructor (files: seq<set<string>>, laterOnTop: bool, height: nat)
      requires files != []
      ensures Valid() && View() == Start(files) && Exact(View())
      ensures (height > 0 ==> CursorSeen()) && PatchCurrent()
    {
      this.files, this.laterOnTop := files, laterOnTop;
      rules, positions, conflicts := Start(files).rules, Start(files).pos, Start(files).conflicts;
      actions := seq(|files|, i => Pick);
      pos, selected, modes := 0, None, Modes(Rules, Init);
      scroll, patch := Scroll(0, 0, height), None;
      new;
      StartIsExact(files);
    }

    function RulePos(displayPos: nat): nat
      reads this
      requires displayPos < |rules|
    {
      if laterOnTop then |rules| - 1 - displayPos else displayPos
    }

    method Exchange(i: nat, j: nat)
      requires Consistent(View()) && i < |files| && j < |files|
      modifies this`rules, this`positions
      ensures View() == Moved(old(View()), i, j)
    {
      rules := rules[i := rules[j]][j := rules[i]];
      positions := positions[rules[j] := j];
      positions := positions[rules[i] := i];
    }

    method Recheck(i: nat, j: nat)
      requires Consistent(View()) && i < |files| && j < |files|
      modifies this`conflicts
      ensures View() == old(View()).(conflicts :=
                CheckRange(old(View()), old(conflicts), rules[j], rules[i], Min(i, j), Max(i, j) + 1))
    {
      conflicts := CheckBetween(View(), conflicts, rules[j], rules[i], Min(i, j), Max(i, j) + 1);
    }

    method ExchangeAndRecheck(i: nat, j: nat)
      requires Consistent(View()) && i < |files| && j < |files|
      modifies this`rules, this`positions, this`conflicts
      ensures Consistent(View()) && View() == Swapped(old(View()), i, j)
    {
      SwapStaysConsistent(View(), i, j);
      MovedIsConsistent(View(), i, j);
      Exchange(i, j);
      Recheck(i, j);
    }

    method Swap(oldpos: nat, newpos: nat)
      requires Valid() && oldpos < |files| && newpos < |files|
      modifies this`rules, this`positions, this`conflicts, this`selected
      ensures Valid()
      ensures View() == Swapped(old(View()), RulePos(oldpos), RulePos(newpos))
      ensures selected == if old(selected).Some? && old(selected).value != 0 then Some(newpos) else old(selected)
    {
      ExchangeAndRecheck(RulePos(oldpos), RulePos(newpos));
      if selected.Some? && selected.value != 0 {
        selected := Some(newpos);
      }
    }

    /** `move_cursor` */
    method MoveCursor(newpos: nat)
      modifies this`pos, this`scroll
      ensures pos == newpos && scroll == ScrolledTo(old(scroll), modes.mode, newpos)
    {
      pos := newpos;
      var first := scroll.rules;
      if modes.mode == Rules {
        if newpos < first {
          first := newpos;
        } else if newpos > first + scroll.height - 1 {
          first := newpos - scroll.height + 1;
        }
      }
      scroll := Scroll(first, 0, scroll.height);
    }

    /** The cursor goes to `newpos`, and takes the rule under it along if `carry` says so. */
    method Step(newpos: nat, carry: bool)
      requires Valid() && newpos < |files|
      modifies this
      ensures Valid() && pos == newpos && actions == old(actions) && modes == old(modes)
      ensures scroll == ScrolledTo(old(scroll), modes.mode, newpos) && patch == old(patch)
      ensures selected ==
              if carry && old(selected).Some? && old(selected).value != 0 then Some(newpos) else old(selected)
      ensures View() == if carry then Swapped(old(View()), RulePos(old(pos)), RulePos(newpos)) else old(View())
      ensures multiset(rules) == multiset(old(rules))
      ensures Max(old(pos), newpos) <= Min(old(pos), newpos) + 1 && old(Exact(View())) ==> Exact(View())
    {
      var oldpos := pos;
      MoveCursor(newpos);
      if carry {
        Carry(oldpos, newpos);
      }
    }

    method Carry(oldpos: nat, newpos: nat)
      requires Valid() && oldpos < |files| && newpos < |files|
      modifies this`rules, this`positions, this`conflicts, this`selected
      ensures Valid() && View() == Swapped(old(View()), RulePos(oldpos), RulePos(newpos))
      ensures selected == if old(selected).Some? && old(selected).value != 0 then Some(newpos) else old(selected)
      ensures multiset(rules) == multiset(old(rules))
      ensures Max(oldpos, newpos) <= Min(oldpos, newpos) + 1 && old(Exact(View())) ==> Exact(View())
    {
      SwapStaysConsistent(View(), RulePos(oldpos), RulePos(newpos));
      if Max(oldpos, newpos) <= Min(oldpos, newpos) + 1 {
        NeighbourPositions(oldpos, newpos);
      }
      Swap(oldpos, newpos);
    }

    /** The keys that move the cursor, and perhaps the rule under it. */
    method MoveBy(key: Key)
      requires Valid() && (key.Up? || key.Down? || key.MoveUp? || key.MoveDown? || key.Digit?)
      modifies this
      ensures Valid() && actions == old(actions) && modes == old(modes) && patch == old(patch)
      ensures scroll == if MovesCursor(key, |files|) then ScrolledTo(old(scroll), modes.mode, pos) else old(scroll)
      ensures pos == Target(key, old(View()), old(pos))
      ensures View() == if Carries(key, old(selected), |files|)
              then Swapped(old(View()), RulePos(old(pos)), RulePos(pos)) else old(View())
      ensures selected == if Carries(key, old(selected), |files|)
                             && old(selected).Some? && old(selected).value != 0
                          then Some(pos) else old(selected)
      ensures multiset(rules) == multiset(old(rules))
      ensures !key.Digit? && old(Exact(View())) ==> Exact(View())
    {
      match key
      case Down =>
        Step(Min(pos + 1, |rules| - 1), selected.Some?);
      case MoveDown =>
        Step(Min(pos + 1, |rules| - 1), true);
      case Up =>
        Step(if pos == 0 then 0 else pos - 1, selected.Some?);
      case MoveUp =>
        Step(if pos == 0 then 0 else pos - 1, true);
      case Digit(n) =>
        if n < |rules| <= 10 {
          Step(positions[n], selected.Some?);
        }
    }

    /** `event`: what one key does. */
    method Event(ch: string) returns (signal: Option<Signal>, ghost key: Key)
      requires Valid()
      modifies this
      ensures Valid() && key == LookUp(old(modes).mode, ch)
      ensures signal == SignalOf(key)
      ensures modes == Pressed(old(modes), key)
      ensures patch == if key.Toggle? && modes.mode == Patch then Some(rules[RulePos(pos)]) else old(patch)
      ensures scroll == if MovesCursor(key, |files|) then ScrolledTo(old(scroll), modes.mode, pos) else old(scroll)
      ensures pos == Target(key, old(View()), old(pos))
      ensures View() == if Carries(key, old(selected), |files|)
              then Swapped(old(View()), RulePos(old(pos)), RulePos(pos)) else old(View())
      ensures |actions| == |old(actions)| && forall r :: 0 <= r < |actions| ==>
                actions[r] == if r != old(rules)[old(pos)] then old(actions)[r]
                              else if key.SetAction? then key.verb
                              else if key.Cycle? then Cycled(old(actions)[r], key.next)
                              else old(actions)[r]
      ensures key.Digit? ==> if key.n < |files| <= 10 then old(rules)[pos] == key.n else pos == old(pos)
      ensures selected == if key.Select? then (if old(selected) == None then Some(old(pos)) else None)
                          else if Carries(key, old(selected), |files|)
                                  && old(selected).Some? && old(selected).value != 0
                          then Some(pos) else old(selected)
      ensures multiset(rules) == multiset(old(rules))
      ensures !key.Digit? && old(Exact(View())) ==> Exact(View())
    {
      signal, key := None, LookUp(modes.mode, ch);
      match LookUp(modes.mode, ch)
      case Select =>
        selected := if selected == None then Some(pos) else None;
      case SetAction(verb) =>
        actions := actions[rules[pos] := verb];
      case Cycle(next) =>
        actions := actions[rules[pos] := Cycled(actions[rules[pos]], next)];
      case Toggle(mode) =>
        ChangeMode(if modes.mode != mode then mode else modes.prev);
      case Send(s) =>
        signal := Some(s);
      case Nothing =>
      case k =>
        MoveBy(k);
    }

    /** `change_mode`; a patch is loaded when it comes into view. */
    method ChangeMode(mode: Mode)
      requires pos < |rules|
      modifies this`modes, this`patch
      ensures modes == Modes(mode, old(modes).mode)
      ensures patch == if mode == Patch then Some(rules[RulePos(pos)]) else old(patch)
    {
      modes := Modes(mode, modes.mode);
      if mode == Patch {
        patch := Some(rules[RulePos(pos)]);
      }
    }

    /** `change_view` */
    method ChangeView(delta: int, page: bool, lines: nat)
      requires scroll.height > 0
      modifies this`scroll
      ensures scroll == if modes.mode != Patch then old(scroll)
                        else old(scroll).(patch := ViewFrom(old(scroll), delta, page, lines))
    {
      if modes.mode == Patch {
        scroll := scroll.(patch := ViewFrom(scroll, delta, page, lines));
      }
    }

    /**
     A key, and what it does to the rules. A rule that is moved goes one place on, if there is one,
     and stays under the cursor; the others keep their order.
     */
    method Press(ch: string) returns (signal: Option<Signal>, ghost key: Key)
      requires Valid()
      modifies this
      ensures Valid() && key == LookUp(old(modes).mode, ch) && signal == SignalOf(key)
      ensures |rules| == |old(rules)|
      ensures RulesAfter(key, old(selected), old(rules), rules, RulePos(old(pos)), RulePos(pos))
      ensures selected == SelectedAfter(key, old(selected), |rules|, old(pos), pos)
      ensures MovesRule(key, old(selected).Some?) ==>
                && pos == OnePlaceOn(key.MoveUp? || key.Up?, old(pos), |rules|)
                && RuleMoved(old(View()), View(), RulePos(old(pos)), RulePos(pos))
    {
      ghost var was, at := View(), pos;
      signal, key := Event(ch);
      KeyEffects(was, View(), key, old(selected), at, RulePos(at), RulePos(pos));
    }

    /**
     A key, and what is seen then. The patch shown stays that of the rule under the cursor exactly
     if the cursor does not leave that rule while a patch is shown.
     */
    method Show(ch: string) returns (signal: Option<Signal>)
      requires Valid() && scroll.height > 0
      modifies this
      ensures Valid() && scroll.height == old(scroll).height && |rules| == |old(rules)|
      ensures old(CursorSeen()) && modes.mode == old(modes).mode ==> CursorSeen()
      ensures old(PatchCurrent()) ==>
                (PatchCurrent() <==>
                 old(modes).mode != Patch || modes.mode != Patch || pos == old(pos) || old(selected).Some?)
    {
      ghost var was, at := View(), pos;
      ghost var key;
      PatchKeys(ch);
      signal, key := Event(ch);
      StaysUnder(was, View(), RulePos(at), RulePos(pos), Carries(key, old(selected), |files|));
    }

    /**
     One turn of the loop around `event`, which after a change of the mode measures the screen. The
     cursor stays among the rules shown.
     */
    method Turn(ch: string, height: nat) returns (signal: Option<Signal>)
      requires Valid() && height > 0 && scroll.height > 0
      modifies this
      ensures Valid() && scroll.height > 0
      ensures old(CursorSeen()) ==> CursorSeen()
      ensures old(PatchCurrent()) ==>
                (PatchCurrent() <==>
                 old(modes).mode != Patch || modes.mode != Patch || pos == old(pos) || old(selected).Some?)
    {
      var before := modes.mode;
      signal := Show(ch);
      if modes.mode != before {
        scroll := scroll.(height := height);
        MoveCursor(pos);
      }
    }

    lemma NeighbourPositions(p: nat, q: nat)
      requires Valid() && p < |rules| && q < |rules| && Max(p, q) <= Min(p, q) + 1
      ensures Consistent(Swapped(View(), RulePos(p), RulePos(q)))
      ensures Exact(View()) ==> Exact(Swapped(View(), RulePos(p), RulePos(q)))
    {
      SwapStaysConsistent(View(), RulePos(p), RulePos(q));
      if Exact(View()) {
        SwapStaysExactIff(View(), RulePos(p), RulePos(q));
      }
    }

    /** An action key changes the rule under the cursor exactly if the display is not reversed around it. */
    lemma ActionHitsCursorIff()
      requires Valid()
      ensures rules[pos] == rules[RulePos(pos)] <==> !laterOnTop || 2 * pos + 1 == |rules|
    {
      assert positions[rules[pos]] == pos;
    }
  }
}
