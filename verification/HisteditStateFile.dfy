/**
 The state file of a histedit session: what `_write` puts there, what `_load` and `read`
 make of it, and that stopping, saving, reloading and continuing loses nothing.
 */
module HisteditStateFile {
  import opened Lists
  import opened Replacements
  import opened HisteditSession
  import opened StateText

  type Node = Bytes

  // ---------------------------------------------------------------------------------------
  // Writing

  function VerbName(v: Verb): string {
    match v
    case Pick => "pick"
    case Edit => "edit"
    case Fold => "fold"
    case Roll => "roll"
    case MultiFold => "_multifold"
    case Base => "base"
    case Drop => "drop"
    case Mess => "mess"
  }

  function HexAll(ns: seq<Node>): string {
    if ns == [] then "" else Hex(ns[0]) + HexAll(ns[1..])
  }

  function ActionLines(actions: seq<Action<Node>>): (r: seq<string>)
    ensures |r| == 2 * |actions|
  {
    seq(2 * |actions|, i requires 0 <= i < 2 * |actions| =>
      if i % 2 == 0 then VerbName(actions[i / 2].verb) else Hex(actions[i / 2].node))
  }

  function ReplacementLine(r: Replacement<Node>): string {
    Hex(r.prec) + HexAll(r.succs)
  }

  function ReplacementLines(reps: seq<Replacement<Node>>): (r: seq<string>)
    ensures |r| == |reps|
  {
    seq(|reps|, i requires 0 <= i < |reps| => ReplacementLine(reps[i]))
  }

  function BackupName(s: Session<Node>): string {
    if s.backup.None? then "" else s.backup.value
  }

  function Header(s: Session<Node>): seq<string> {
    ["v1", Hex(s.parent), Hex(s.topmost), if s.keep then "True" else "False", Decimal(|s.actions|)]
  }

  function TailLines(s: Session<Node>): seq<string> {
    [Decimal(|s.replacements|)] + (ReplacementLines(s.replacements) + [BackupName(s)])
  }

  function StateLines(s: Session<Node>): seq<string> {
    Header(s) + (ActionLines(s.actions) + TailLines(s))
  }

  /** One `fp.write(b'%s\n' % l)`. */
  method PutLine(text: string, ghost lines: seq<string>, l: string) returns (text': string, ghost lines': seq<string>)
    requires text == Unlines(lines)
    ensures text' == Unlines(lines') && lines' == lines + [l]
  {
    text' := text + (l + "\n");
    lines' := lines + [l];
    UnlinesConcat(lines, [l]);
    assert Unlines([l]) == l + "\n" + Unlines([]);
  }

  method PutHeader(s: Session<Node>) returns (text: string)
    ensures text == Unlines(Header(s))
  {
    ghost var lines: seq<string> := [];
    text := "";
    text, lines := PutLine(text, lines, "v1");
    text, lines := PutLine(text, lines, Hex(s.parent));
    text, lines := PutLine(text, lines, Hex(s.topmost));
    text, lines := PutLine(text, lines, if s.keep then "True" else "False");
    text, lines := PutLine(text, lines, Decimal(|s.actions|));
    assert lines == Header(s);
  }

  lemma ActionLinesStep(actions: seq<Action<Node>>, i: nat)
    requires i < |actions|
    ensures ActionLines(actions)[..2 * (i + 1)]
         == ActionLines(actions)[..2 * i] + [VerbName(actions[i].verb)] + [Hex(actions[i].node)]
  {
    assert (2 * i) / 2 == i && (2 * i) % 2 == 0 && (2 * i + 1) / 2 == i && (2 * i + 1) % 2 == 1;
  }

  method PutActions(text: string, ghost lines: seq<string>, actions: seq<Action<Node>>)
    returns (text': string, ghost lines': seq<string>)
    requires text == Unlines(lines)
    ensures text' == Unlines(lines') && lines' == lines + ActionLines(actions)
  {
    text', lines' := text, lines;
    for i := 0 to |actions|
      invariant text' == Unlines(lines')
      invariant lines' == lines + ActionLines(actions)[..2 * i]
    {
      text', lines' := PutLine(text', lines', VerbName(actions[i].verb));
      text', lines' := PutLine(text', lines', Hex(actions[i].node));
      ActionLinesStep(actions, i);
    }
    assert ActionLines(actions)[..2 * |actions|] == ActionLines(actions);
  }

  method PutReplacements(text: string, ghost lines: seq<string>, reps: seq<Replacement<Node>>)
    returns (text': string, ghost lines': seq<string>)
    requires text == Unlines(lines)
    ensures text' == Unlines(lines') && lines' == lines + ReplacementLines(reps)
  {
    text', lines' := text, lines;
    for i := 0 to |reps|
      invariant text' == Unlines(lines')
      invariant lines' == lines + ReplacementLines(reps)[..i]
    {
      OneMoreReplacementLine(lines, reps, i);
      text', lines' := PutLine(text', lines', Hex(reps[i].prec) + HexAll(reps[i].succs));
    }
    assert ReplacementLines(reps)[..|reps|] == ReplacementLines(reps);
  }

  lemma OneMoreReplacementLine(lines: seq<string>, reps: seq<Replacement<Node>>, i: nat)
    requires i < |reps|
    ensures (lines + ReplacementLines(reps)[..i]) + [Hex(reps[i].prec) + HexAll(reps[i].succs)]
         == lines + ReplacementLines(reps)[..i + 1]
  {
  }

  /** `_write`, line by line. */
  method Write(s: Session<Node>) returns (text: string)
    ensures text == Unlines(StateLines(s))
  {
    text := PutHeader(s);
    ghost var lines := Header(s);
    text, lines := PutActions(text, lines, s.actions);
    text, lines := PutLine(text, lines, Decimal(|s.replacements|));
    text, lines := PutReplacements(text, lines, s.replacements);
    text, lines := PutLine(text, lines, BackupName(s));
    JoinFive(Header(s), ActionLines(s.actions), [Decimal(|s.replacements|)],
             ReplacementLines(s.replacements), [BackupName(s)]);
  }

  lemma JoinFive<T>(a: seq<T>, b: seq<T>, c: seq<T>, d: seq<T>, e: seq<T>)
    ensures (((a + b) + c) + d) + e == a + (b + (c + (d + e)))
  {
  }

  lemma OneByte(x: byte)
    ensures Hex([x]) == [Nibble(x as int / 16), Nibble(x as int % 16)]
  {
    assert [x][1..] == [] && Hex([]) == "";
  }

  /** The file of a small session, line by line. */
  lemma StateFileLooksLike(keep: bool, backup: Option<string>)
    ensures var s := Session([1], [175], keep, [Action(Drop, [18]), Action(Base, [0])],
                             [Replacement([3], [[4], [5]]), Replacement([18], [])], backup);
            && Header(s) == ["v1", "01", "af", if keep then "True" else "False", "2"]
            && ActionLines(s.actions) == ["drop", "12", "base", "00"]
            && TailLines(s) == ["2", "030405", "12", if backup.Some? then backup.value else ""]
            && StateLines(s) == Header(s) + (ActionLines(s.actions) + TailLines(s))
  {
    OneByte(1);
    OneByte(175);
    SmallPlan();
    SmallRows();
  }

  lemma SmallPlan()
    ensures ActionLines([Action(Drop, [18]), Action(Base, [0])]) == ["drop", "12", "base", "00"]
  {
    OneByte(18);
    OneByte(0);
  }

  lemma SmallRows()
    ensures ReplacementLine(Replacement([3], [[4], [5]])) == "030405"
    ensures ReplacementLine(Replacement([18], [])) == "12"
  {
    OneByte(3);
    OneByte(4);
    OneByte(5);
    OneByte(18);
    var two: seq<Node>, one: seq<Node> := [[4], [5]], [[5]];
    assert two[1..] == one && one[1..] == [] && HexAll([]) == "";
    assert HexAll(one) == "05";
    assert HexAll(two) == "0405";
  }

  // ---------------------------------------------------------------------------------------
  // Loading

  datatype Loaded = Loaded(
    parent: Node, topmost: Node, keep: bool, rules: seq<(string, string)>,
    replacements: seq<Replacement<Node>>, backup: string)

  function Slice(s: string, lo: nat, hi: nat): string
    requires lo <= hi
  {
    var h := if hi <= |s| then hi else |s|;
    if lo <= h then s[lo..h] else ""
  }

  /** The 40-digit pieces of a replacement line from a position on. */
  function Pieces(line: string, at: nat): Option<seq<Node>>
    decreases |line| - at
  {
    if at >= |line| then Some([])
    else
      var n, rest := Bin(Slice(line, at, at + 40)), Pieces(line, at + 40);
      if n.None? || rest.None? then None else Some([n.value] + rest.value)
  }

  function ParseReplacement(line: string): Option<Replacement<Node>> {
    var prec, succs := Bin(Slice(line, 0, 40)), Pieces(line, 40);
    if prec.None? || succs.None? then None else Some(Replacement(prec.value, succs.value))
  }

  /** Parses every line; one that does not parse is an exception for the whole. */
  function ParseAll<T>(parse: string -> Option<T>, lines: seq<string>): Option<seq<T>> {
    if lines == [] then Some([])
    else
      var front, last := ParseAll(parse, lines[..|lines| - 1]), parse(lines[|lines| - 1]);
      if front.None? || last.None? then None else Some(front.value + [last.value])
  }

  function ParseReplacements(lines: seq<string>): Option<seq<Replacement<Node>>> {
    ParseAll(ParseReplacement, lines)
  }

  function RulePairs(lines: seq<string>): (r: seq<(string, string)>)
    requires |lines| % 2 == 0
    ensures |r| == |lines| / 2
  {
    seq(|lines| / 2, i requires 0 <= i < |lines| / 2 => (lines[2 * i], lines[2 * i + 1]))
  }

  /** How often `range` makes a loop run. */
  function Times(n: int): nat {
    if n < 0 then 0 else n
  }

  /** What follows the rules: the replacements and the name of the backup. */
  function LoadTail(tail: seq<string>, head: Loaded): Option<Loaded> {
    if tail == [] then None
    else
      var nreps := ParseInt(tail[0]);
      if nreps.None? || |tail| <= 1 + Times(nreps.value) then None
      else
        var n := Times(nreps.value);
        var reps := ParseReplacements(tail[1..1 + n]);
        if reps.None? then None
        else Some(head.(replacements := reps.value, backup := tail[1 + n]))
  }

  /** What the lines of a state file hold; None where the source raises. */
  function LoadLines(lines: seq<string>): Option<Loaded> {
    if |lines| < 5 then None
    else
      var parent, topmost, nrules := Bin(lines[1]), Bin(lines[2]), ParseInt(lines[4]);
      if parent.None? || topmost.None? || nrules.None? || |lines| < 5 + 2 * Times(nrules.value) then None
      else
        var at := 5 + 2 * Times(nrules.value);
        LoadTail(lines[at..], Loaded(parent.value, topmost.value, lines[3] == "True", RulePairs(lines[5..at]), [], ""))
  }

  method LoadRules(lines: seq<string>, start: nat, rulelen: nat) returns (rules: seq<(string, string)>, index: nat)
    requires start + 2 * rulelen <= |lines|
    ensures index == start + 2 * rulelen && rules == RulePairs(lines[start..index])
  {
    rules, index := [], start;
    for i := 0 to rulelen
      invariant index == start + 2 * i && |rules| == i
      invariant forall k :: 0 <= k < i ==> rules[k] == (lines[start + 2 * k], lines[start + 2 * k + 1])
    {
      var ruleaction := lines[index];
      index := index + 1;
      var rule := lines[index];
      index := index + 1;
      rules := rules + [(ruleaction, rule)];
    }
  }

  lemma SliceOfSlice<T>(s: seq<T>, start: nat, i: nat, n: nat)
    requires i < n && start + n <= |s|
    ensures s[start..start + i + 1][..i] == s[start..start + i]
    ensures s[start..start + n][..i + 1] == s[start..start + i + 1]
  {
  }

  method LoadReplacements(lines: seq<string>, start: nat, replacementlen: nat)
    returns (replacements: Option<seq<Replacement<Node>>>, index: nat)
    requires start + replacementlen <= |lines|
    ensures replacements == ParseReplacements(lines[start..start + replacementlen])
    ensures replacements.Some? ==> index == start + replacementlen
  {
    var reps := [];
    index := start;
    for i := 0 to replacementlen
      invariant index == start + i
      invariant ParseReplacements(lines[start..index]) == Some(reps)
    {
      var rep := ParseReplacement(lines[index]);
      SliceOfSlice(lines, start, i, replacementlen);
      if rep.None? {
        ParsePrefix(ParseReplacement, lines[start..start + replacementlen], i + 1);
        return None, index;
      }
      reps := reps + [rep.value];
      index := index + 1;
    }
    replacements := Some(reps);
  }

  method LoadRest(lines: seq<string>, at: nat, head: Loaded) returns (r: Option<Loaded>)
    requires at <= |lines|
    ensures r == LoadTail(lines[at..], head)
  {
    var index := at;
    if |lines| <= index {
      return None;
    }
    var replacementlen := ParseInt(lines[index]);
    index := index + 1;
    if replacementlen.None? || |lines| <= index + Times(replacementlen.value) {
      return None;
    }
    var replacements;
    var n := Times(replacementlen.value);
    assert lines[at..][1..1 + n] == lines[index..index + n];
    replacements, index := LoadReplacements(lines, index, n);
    if replacements.None? {
      return None;
    }
    return Some(head.(replacements := replacements.value, backup := lines[index]));
  }

  /** `_load`: one index advanced through the lines. */
  method Load(text: string) returns (r: Option<Loaded>)
    ensures r == LoadLines(Lines(text))
  {
    var lines := Lines(text);
    if |lines| < 5 {
      return None;
    }
    var index := 1;
    var parent := Bin(lines[index]);
    index := index + 1;
    var topmost := Bin(lines[index]);
    index := index + 1;
    var keep := lines[index] == "True";
    index := index + 1;
    var rulelen := ParseInt(lines[index]);
    index := index + 1;
    if parent.None? || topmost.None? || rulelen.None? || |lines| < index + 2 * Times(rulelen.value) {
      return None;
    }
    var rules;
    rules, index := LoadRules(lines, index, Times(rulelen.value));
    r := LoadRest(lines, index, Loaded(parent.value, topmost.value, keep, rules, [], ""));
  }

  lemma {:induction false} ParsePrefix<T>(parse: string -> Option<T>, lines: seq<string>, k: nat)
    requires k <= |lines| && ParseAll(parse, lines[..k]).None?
    ensures ParseAll(parse, lines).None?
  {
    if k < |lines| {
      assert lines[..|lines| - 1][..k] == lines[..k];
      ParsePrefix(parse, lines[..|lines| - 1], k);
    } else {
      assert lines[..k] == lines;
    }
  }

  lemma {:induction false} ParseAllIs<T>(parse: string -> Option<T>, lines: seq<string>, values: seq<T>)
    requires |lines| == |values|
    requires forall i :: 0 <= i < |lines| ==> parse(lines[i]) == Some(values[i])
    ensures ParseAll(parse, lines) == Some(values)
  {
    if lines != [] {
      ParseAllIs(parse, lines[..|lines| - 1], values[..|values| - 1]);
      assert values == values[..|values| - 1] + [values[|values| - 1]];
    }
  }

  // ---------------------------------------------------------------------------------------
  // Rules as text

  predicate IsSpace(c: char) {
    c == ' ' || '\t' <= c <= '\r'
  }

  function LStrip(s: string): string {
    if s != "" && IsSpace(s[0]) then LStrip(s[1..]) else s
  }

  function RStrip(s: string): string {
    if s != "" && IsSpace(s[|s| - 1]) then RStrip(s[..|s| - 1]) else s
  }

  function Strip(s: string): string {
    RStrip(LStrip(s))
  }

  predicate IsBreak(c: char) {
    c == '\n' || c == '\r'
  }

  function FirstBreak(t: string): (k: nat)
    ensures k <= |t|
    ensures forall i :: 0 <= i < k ==> !IsBreak(t[i])
    ensures k < |t| ==> IsBreak(t[k])
  {
    if t == "" || IsBreak(t[0]) then 0 else 1 + FirstBreak(t[1..])
  }

  /** `bytes.splitlines()` */
  function SplitLines(t: string): seq<string> {
    if t == "" then []
    else
      var k := FirstBreak(t);
      if k == |t| then [t]
      else if t[k] == '\r' && k + 1 < |t| && t[k + 1] == '\n' then [t[..k]] + SplitLines(t[k + 2..])
      else [t[..k]] + SplitLines(t[k + 1..])
  }

  function JoinLines(lines: seq<string>): string {
    if lines == [] then "" else if |lines| == 1 then lines[0] else lines[0] + "\n" + JoinLines(lines[1..])
  }

  /** The lines that are rules: stripped, neither blank nor comments. */
  function RuleTexts(lines: seq<string>): seq<string> {
    if lines == [] then []
    else
      var l, rest := Strip(lines[0]), RuleTexts(lines[1..]);
      if l == "" || l[0] == '#' then rest else [l] + rest
  }

  function VerbOf(name: string): Option<Verb> {
    if name == "pick" || name == "p" then Some(Pick)
    else if name == "edit" || name == "e" then Some(Edit)
    else if name == "fold" || name == "f" then Some(Fold)
    else if name == "roll" || name == "r" then Some(Roll)
    else if name == "_multifold" then Some(MultiFold)
    else if name == "base" || name == "b" then Some(Base)
    else if name == "drop" || name == "d" then Some(Drop)
    else if name == "mess" || name == "m" then Some(Mess)
    else None
  }

  /** `fromrule`: a node in hex, or anything else the repository can look up. */
  function RuleNode(rest: string, lookup: map<string, Node>): Option<Node> {
    var text := Strip(rest);
    var ruleid := text[..FirstIndex(text, ' ')];
    var node := Bin(ruleid);
    if node.Some? then node
    else if ruleid in lookup then Some(lookup[ruleid]) else None
  }

  function ParseRule(line: string, lookup: map<string, Node>): Option<Action<Node>> {
    var k := FirstIndex(line, ' ');
    if k == |line| then None
    else
      var verb, node := VerbOf(line[..k]), RuleNode(line[k + 1..], lookup);
      if verb.None? || node.None? then None else Some(Action(verb.value, node.value))
  }

  function RuleParser(lookup: map<string, Node>): string -> Option<Action<Node>> {
    line => ParseRule(line, lookup)
  }

  function RulesOf(text: string, lookup: map<string, Node>): Option<seq<Action<Node>>> {
    ParseAll(RuleParser(lookup), RuleTexts(SplitLines(text)))
  }

  lemma ParseOneMore<T>(parse: string -> Option<T>, lines: seq<string>, i: nat)
    requires i < |lines| && ParseAll(parse, lines[..i]).Some?
    ensures var a := parse(lines[i]);
            if a.None? then ParseAll(parse, lines).None?
            else ParseAll(parse, lines[..i + 1]) == Some(ParseAll(parse, lines[..i]).value + [a.value])
  {
    assert lines[..i + 1][..i] == lines[..i];
    if parse(lines[i]).None? {
      ParsePrefix(parse, lines, i + 1);
    }
  }

  /** `parserules` */
  method ParseRules(text: string, lookup: map<string, Node>) returns (r: Option<seq<Action<Node>>>)
    ensures r == RulesOf(text, lookup)
  {
    var rules := RuleTexts(SplitLines(text));
    ghost var parse := RuleParser(lookup);
    var actions := [];
    for i := 0 to |rules|
      invariant ParseAll(parse, rules[..i]) == Some(actions)
    {
      var a := ParseRule(rules[i], lookup);
      ParseOneMore(parse, rules, i);
      if a.None? {
        return None;
      }
      actions := actions + [a.value];
    }
    assert rules[..|rules|] == rules;
    return Some(actions);
  }

  function RuleLine(rule: (string, string)): string {
    rule.0 + " " + rule.1
  }

  function RulesText(rules: seq<(string, string)>): string {
    JoinLines(seq(|rules|, i requires 0 <= i < |rules| => RuleLine(rules[i])))
  }

  /** `read`: the loaded rules go through their text form and the rule parser. */
  function ReadSession(text: string, lookup: map<string, Node>): Option<Session<Node>> {
    match LoadLines(Lines(text))
    case None => None
    case Some(d) =>
      match RulesOf(RulesText(d.rules), lookup)
      case None => None
      case Some(actions) => Some(Session(d.parent, d.topmost, d.keep, actions, d.replacements, Some(d.backup)))
  }

  // ---------------------------------------------------------------------------------------
  // Round trips

  lemma VerbNameShape(v: Verb)
    ensures VerbOf(VerbName(v)) == Some(v)
    ensures VerbName(v) != "" && forall c :: c in VerbName(v) ==> c == '_' || 'a' <= c <= 'z'
  {
  }

  ghost predicate NoBreak(l: string) {
    forall c :: c in l ==> !IsBreak(c)
  }

  ghost predicate Unbroken(l: string) {
    l != "" && NoBreak(l)
  }

  lemma FirstBreakIs(t: string, l: string)
    requires NoBreak(l) && |l| <= |t| && t[..|l|] == l && (|l| < |t| ==> IsBreak(t[|l|]))
    ensures FirstBreak(t) == |l|
  {
    var k := FirstBreak(t);
    assert forall i :: 0 <= i < |l| ==> t[i] == l[i] && l[i] in l;
  }

  lemma {:induction false} SplitLinesOfJoin(lines: seq<string>)
    requires forall l :: l in lines ==> Unbroken(l)
    ensures SplitLines(JoinLines(lines)) == lines
  {
    if lines != [] {
      var l, text := lines[0], JoinLines(lines);
      assert Unbroken(l);
      assert text[..|l|] == l;
      FirstBreakIs(text, l);
      if |lines| > 1 {
        assert text[|l| + 1..] == JoinLines(lines[1..]);
        SplitLinesOfJoin(lines[1..]);
      } else {
        assert lines == [l];
      }
    }
  }

  ghost predicate Trimmed(l: string) {
    l != "" && l[0] != '#' && !IsSpace(l[0]) && !IsSpace(l[|l| - 1])
  }

  lemma {:induction false} RuleTextsKeepsRules(lines: seq<string>)
    requires forall l :: l in lines ==> Trimmed(l)
    ensures RuleTexts(lines) == lines
  {
    if lines != [] {
      assert Trimmed(lines[0]);
      assert Strip(lines[0]) == lines[0];
      RuleTextsKeepsRules(lines[1..]);
    }
  }

  lemma RuleNodeOfHex(node: Node, lookup: map<string, Node>)
    requires node != []
    ensures Trimmed(Hex(node)) && RuleNode(Hex(node), lookup) == Some(node)
  {
    var hex := Hex(node);
    HexShape(node);
    BinOfHex(node);
    assert hex[0] in hex && hex[|hex| - 1] in hex;
    HexIsOneLine(hex);
    assert Strip(hex) == hex;
    FirstIndexIs(hex, ' ', |hex|);
    assert hex[..|hex|] == hex;
  }

  lemma RuleLineParses(a: Action<Node>, lookup: map<string, Node>)
    requires a.node != []
    ensures ParseRule(RuleLine((VerbName(a.verb), Hex(a.node))), lookup) == Some(a)
  {
    var verb, hex := VerbName(a.verb), Hex(a.node);
    var l := RuleLine((verb, hex));
    VerbNameShape(a.verb);
    RuleNodeOfHex(a.node, lookup);
    assert l[..|verb|] == verb && l[|verb| + 1..] == hex;
    assert l[|verb|] == ' ';
    FirstIndexIs(l, ' ', |verb|);
  }

  // What rules written by hand may look like.

  ghost predicate Blanks(s: string) {
    forall c :: c in s ==> IsSpace(c)
  }

  /** Nothing but blanks, or a comment behind blanks. */
  ghost predicate Ignored(l: string) {
    exists k :: 0 <= k <= |l| && Blanks(l[..k]) && (k == |l| || l[k] == '#')
  }

  lemma {:induction false} LStripBlanks(p: string, s: string)
    requires Blanks(p)
    ensures LStrip(p + s) == LStrip(s)
  {
    if p == "" {
      assert p + s == s;
    } else {
      assert p[0] in p && forall c :: c in p[1..] ==> c in p;
      assert (p + s)[1..] == p[1..] + s;
      LStripBlanks(p[1..], s);
    }
  }

  lemma {:induction false} RStripBlanks(s: string, p: string)
    requires Blanks(p)
    ensures RStrip(s + p) == RStrip(s)
  {
    if p == "" {
      assert s + p == s;
    } else {
      var front := p[..|p| - 1];
      assert p[|p| - 1] in p && forall c :: c in front ==> c in p;
      assert (s + p)[..|s + p| - 1] == s + front;
      RStripBlanks(s, front);
    }
  }

  lemma {:induction false} LStripKeeps(s: string)
    requires s != "" && !IsSpace(s[|s| - 1])
    ensures LStrip(s) != "" && LStrip(s)[|LStrip(s)| - 1] == s[|s| - 1]
  {
    if IsSpace(s[0]) {
      LStripKeeps(s[1..]);
    }
  }

  lemma {:induction false} RStripStart(s: string)
    requires s != "" && !IsSpace(s[0])
    ensures RStrip(s) != "" && RStrip(s)[0] == s[0]
  {
    if IsSpace(s[|s| - 1]) {
      RStripStart(s[..|s| - 1]);
    }
  }

  /** An ignored line is no rule. */
  lemma IgnoredIsNoRule(l: string)
    requires Ignored(l)
    ensures Strip(l) == "" || Strip(l)[0] == '#'
  {
    var k :| 0 <= k <= |l| && Blanks(l[..k]) && (k == |l| || l[k] == '#');
    assert l == l[..k] + l[k..];
    LStripBlanks(l[..k], l[k..]);
    if k < |l| {
      assert LStrip(l[k..]) == l[k..];
      RStripStart(l[k..]);
    }
  }

  lemma {:induction false} RuleTextsConcat(x: seq<string>, y: seq<string>)
    ensures RuleTexts(x + y) == RuleTexts(x) + RuleTexts(y)
  {
    if x == [] {
      assert x + y == y;
    } else {
      assert (x + y)[1..] == x[1..] + y;
      RuleTextsConcat(x[1..], y);
    }
  }

  /** Where the line after the first one starts. */
  ghost function NextLine(t: string): (n: nat)
    requires FirstBreak(t) < |t|
    ensures FirstBreak(t) < n <= |t|
  {
    var k := FirstBreak(t);
    if t[k] == '\r' && k + 1 < |t| && t[k + 1] == '\n' then k + 2 else k + 1
  }

  lemma FirstLineSplits(t: string)
    requires FirstBreak(t) < |t|
    ensures SplitLines(t) == [t[..FirstBreak(t)]] + SplitLines(t[NextLine(t)..])
  {
  }

  lemma NextLineStays(t: string, u: string)
    requires t != "" && t[|t| - 1] == '\n'
    ensures FirstBreak(t) < |t| && FirstBreak(t + u) == FirstBreak(t) && NextLine(t + u) == NextLine(t)
    ensures t[NextLine(t)..] == "" || t[NextLine(t)..][|t| - NextLine(t) - 1] == '\n'
  {
    assert IsBreak(t[|t| - 1]);
    BreakStays(t, u);
  }

  lemma {:induction false} SplitLinesConcat(t: string, u: string)
    requires t == "" || t[|t| - 1] == '\n'
    ensures SplitLines(t + u) == SplitLines(t) + SplitLines(u)
    decreases |t|
  {
    if t == "" {
      assert t + u == u;
    } else {
      NextLineStays(t, u);
      FirstLineSplits(t);
      FirstLineSplits(t + u);
      FirstLineOfConcat(t, u, FirstBreak(t), NextLine(t));
      SplitLinesConcat(t[NextLine(t)..], u);
      SameHead(SplitLines(t), SplitLines(t + u), t[..FirstBreak(t)], SplitLines(t[NextLine(t)..]), SplitLines(u));
    }
  }

  lemma FirstLineOfConcat(t: string, u: string, k: nat, n: nat)
    requires k <= n <= |t|
    ensures (t + u)[..k] == t[..k] && (t + u)[n..] == t[n..] + u
  {
  }

  lemma SameHead<T>(x: seq<T>, y: seq<T>, h: T, a: seq<T>, c: seq<T>)
    requires x == [h] + a && y == [h] + (a + c)
    ensures y == x + c
  {
  }

  lemma BreakStays(t: string, u: string)
    requires FirstBreak(t) < |t|
    ensures FirstBreak(t + u) == FirstBreak(t)
  {
    var k := FirstBreak(t);
    assert (t + u)[..k] == t[..k];
    FirstBreakIs(t + u, t[..k]);
  }

  /** A blank line or a comment, anywhere between complete lines, leaves the rules what they are. */
  lemma IgnoredLineLeavesRules(before: string, l: string, after: string, lookup: map<string, Node>)
    requires before == "" || before[|before| - 1] == '\n'
    requires NoBreak(l) && Ignored(l)
    ensures RulesOf(before + ((l + "\n") + after), lookup) == RulesOf(before + after, lookup)
  {
    var line := l + "\n";
    SplitLinesConcat(before, line + after);
    SplitLinesConcat(line, after);
    SplitLinesConcat(before, after);
    OneLineSplits(l);
    var x, y := SplitLines(before), SplitLines(after);
    RuleTextsConcat(x, [l] + y);
    RuleTextsConcat([l], y);
    RuleTextsConcat(x, y);
    IgnoredIsNoRule(l);
    assert [l][1..] == [];
  }

  lemma OneLineSplits(l: string)
    requires NoBreak(l)
    ensures SplitLines(l + "\n") == [l]
  {
    var t := l + "\n";
    assert t[..|l|] == l && t[|l|] == '\n' && t[|l| + 1..] == "";
    FirstBreakIs(t, l);
  }

  /** Blanks around a rule make no difference. */
  lemma BlanksAround(p: string, l: string, q: string)
    requires Blanks(p) && Blanks(q)
    ensures Strip(p + (l + q)) == Strip(l)
  {
    LStripBlanks(p, l + q);
    LStripThenRStrip(l, q);
  }

  lemma {:induction false} LStripThenRStrip(l: string, q: string)
    requires Blanks(q)
    ensures RStrip(LStrip(l + q)) == RStrip(LStrip(l))
  {
    if l == "" {
      assert l + q == q + "";
      LStripBlanks(q, "");
    } else if IsSpace(l[0]) {
      assert (l + q)[1..] == l[1..] + q;
      LStripThenRStrip(l[1..], q);
    } else {
      RStripBlanks(l, q);
    }
  }

  function ShortName(v: Verb): string {
    match v
    case Pick => "p"
    case Edit => "e"
    case Fold => "f"
    case Roll => "r"
    case Base => "b"
    case Drop => "d"
    case Mess => "m"
    case MultiFold => "_multifold"
  }

  /** The short name of a verb is as good as the long one. */
  lemma ShortVerb(v: Verb, rest: string, lookup: map<string, Node>)
    ensures ParseRule(ShortName(v) + " " + rest, lookup) == ParseRule(VerbName(v) + " " + rest, lookup)
  {
    ShortNameShape(v);
    VerbNameHasNoBlank(v);
    VerbFirst(ShortName(v), rest, lookup);
    VerbFirst(VerbName(v), rest, lookup);
  }

  lemma ShortNameShape(v: Verb)
    ensures VerbOf(ShortName(v)) == Some(v) && ' ' !in ShortName(v)
  {
  }

  lemma VerbNameHasNoBlank(v: Verb)
    ensures VerbOf(VerbName(v)) == Some(v) && ' ' !in VerbName(v)
  {
    VerbNameShape(v);
  }

  lemma VerbFirst(verb: string, rest: string, lookup: map<string, Node>)
    requires ' ' !in verb
    ensures ParseRule(verb + " " + rest, lookup) ==
            var v, node := VerbOf(verb), RuleNode(rest, lookup);
            if v.None? || node.None? then None else Some(Action(v.value, node.value))
  {
    var l := verb + " " + rest;
    assert l[..|verb|] == verb && l[|verb|] == ' ' && l[|verb| + 1..] == rest;
    FirstIndexIs(l, ' ', |verb|);
  }

  /** What follows the node on a rule line, as the summary does, is not looked at. */
  lemma SummaryIgnored(a: Action<Node>, summary: string, lookup: map<string, Node>)
    requires a.node != [] && summary != "" && !IsSpace(summary[|summary| - 1])
    ensures ParseRule(VerbName(a.verb) + " " + (Hex(a.node) + (" " + summary)), lookup) == Some(a)
  {
    VerbNameHasNoBlank(a.verb);
    VerbFirst(VerbName(a.verb), Hex(a.node) + (" " + summary), lookup);
    NodeThenSummary(a.node, summary, lookup);
  }

  lemma NodeThenSummary(node: Node, summary: string, lookup: map<string, Node>)
    requires node != [] && summary != "" && !IsSpace(summary[|summary| - 1])
    ensures RuleNode(Hex(node) + (" " + summary), lookup) == Some(node)
  {
    var hex := Hex(node);
    var rest := hex + (" " + summary);
    HexShape(node);
    HexHasNoBlank(hex);
    assert hex[0] in hex && rest[0] == hex[0] && rest[|rest| - 1] == summary[|summary| - 1];
    assert Strip(rest) == rest;
    assert rest[..|hex|] == hex && rest[|hex|] == ' ';
    FirstIndexIs(rest, ' ', |hex|);
    BinOfHex(node);
  }

  lemma HexHasNoBlank(hex: string)
    requires HexText(hex)
    ensures forall c :: c in hex ==> !IsSpace(c)
  {
    forall c | c in hex
      ensures !IsSpace(c)
    {
      assert NibbleValue(c) >= 0;
    }
  }

  lemma RuleLineShape(a: Action<Node>)
    requires a.node != []
    ensures Trimmed(RuleLine((VerbName(a.verb), Hex(a.node)))) && Unbroken(RuleLine((VerbName(a.verb), Hex(a.node))))
  {
    var verb, hex := VerbName(a.verb), Hex(a.node);
    var l := RuleLine((verb, hex));
    VerbNameShape(a.verb);
    RuleNodeOfHex(a.node, map[]);
    HexShape(a.node);
    HexIsOneLine(hex);
    assert l[0] == verb[0] && verb[0] in verb && l[|l| - 1] == hex[|hex| - 1];
    forall c | c in l
      ensures !IsBreak(c)
    {
      assert c in verb || c == ' ' || c in hex;
    }
  }

  ghost function RulePairsOf(actions: seq<Action<Node>>): seq<(string, string)> {
    seq(|actions|, i requires 0 <= i < |actions| => (VerbName(actions[i].verb), Hex(actions[i].node)))
  }

  /** Actions survive the detour through rule text. */
  lemma RulesReparse(actions: seq<Action<Node>>, lookup: map<string, Node>)
    requires forall a :: a in actions ==> a.node != []
    ensures RulesOf(RulesText(RulePairsOf(actions)), lookup) == Some(actions)
  {
    var pairs := RulePairsOf(actions);
    var lines := seq(|pairs|, i requires 0 <= i < |pairs| => RuleLine(pairs[i]));
    forall i | 0 <= i < |actions|
      ensures Trimmed(lines[i]) && Unbroken(lines[i]) && ParseRule(lines[i], lookup) == Some(actions[i])
    {
      assert actions[i] in actions;
      RuleLineShape(actions[i]);
      RuleLineParses(actions[i], lookup);
    }
    SplitLinesOfJoin(lines);
    RuleTextsKeepsRules(lines);
    ParseAllIs(RuleParser(lookup), lines, actions);
  }

  /** Nodes are 20 bytes, and the name of the backup is a single line. */
  ghost predicate Storable(s: Session<Node>) {
    && |s.parent| == 20 && |s.topmost| == 20
    && (forall a :: a in s.actions ==> |a.node| == 20)
    && (forall r :: r in s.replacements ==> |r.prec| == 20 && forall n :: n in r.succs ==> |n| == 20)
    && OneLine(BackupName(s))
  }

  lemma {:induction false} PiecesOfHexAll(line: string, at: nat, ns: seq<Node>)
    requires at <= |line| && line[at..] == HexAll(ns)
    requires forall n :: n in ns ==> |n| == 20
    ensures Pieces(line, at) == Some(ns)
    decreases |ns|
  {
    if ns != [] {
      assert ns[0] in ns;
      HexShape(ns[0]);
      BinOfHex(ns[0]);
      assert line[at..at + 40] == line[at..][..40] == Hex(ns[0]);
      assert line[at + 40..] == line[at..][40..] == HexAll(ns[1..]);
      PiecesOfHexAll(line, at + 40, ns[1..]);
      assert ns == [ns[0]] + ns[1..];
    }
  }

  lemma ReplacementLineParses(r: Replacement<Node>)
    requires |r.prec| == 20 && forall n :: n in r.succs ==> |n| == 20
    ensures ParseReplacement(ReplacementLine(r)) == Some(r)
  {
    var line := ReplacementLine(r);
    HexShape(r.prec);
    BinOfHex(r.prec);
    assert line[0..40] == Hex(r.prec) && line[40..] == HexAll(r.succs);
    PiecesOfHexAll(line, 40, r.succs);
  }

  lemma {:induction false} HexAllIsHexText(ns: seq<Node>)
    ensures HexText(HexAll(ns))
  {
    if ns != [] {
      HexShape(ns[0]);
      HexAllIsHexText(ns[1..]);
    }
  }

  ghost predicate AllLines(lines: seq<string>) {
    forall l :: l in lines ==> OneLine(l)
  }

  lemma HeaderIsLines(s: Session<Node>)
    ensures AllLines(Header(s))
  {
    HexShape(s.parent);
    HexShape(s.topmost);
    ParseIntOfDecimal(|s.actions|);
  }

  lemma ActionLinesAreLines(actions: seq<Action<Node>>)
    ensures AllLines(ActionLines(actions))
  {
    var lines := ActionLines(actions);
    forall i | 0 <= i < |lines|
      ensures OneLine(lines[i])
    {
      VerbNameShape(actions[i / 2].verb);
      HexShape(actions[i / 2].node);
    }
  }

  lemma ReplacementLinesAreLines(reps: seq<Replacement<Node>>)
    ensures AllLines(ReplacementLines(reps))
  {
    var lines := ReplacementLines(reps);
    forall i | 0 <= i < |lines|
      ensures OneLine(lines[i])
    {
      HexShape(reps[i].prec);
      HexAllIsHexText(reps[i].succs);
    }
  }

  lemma StateLinesAreLines(s: Session<Node>)
    requires OneLine(BackupName(s))
    ensures AllLines(StateLines(s))
  {
    HeaderIsLines(s);
    ActionLinesAreLines(s.actions);
    ParseIntOfDecimal(|s.replacements|);
    ReplacementLinesAreLines(s.replacements);
  }

  lemma ReplacementLinesParse(reps: seq<Replacement<Node>>)
    requires forall r :: r in reps ==> |r.prec| == 20 && forall n :: n in r.succs ==> |n| == 20
    ensures ParseReplacements(ReplacementLines(reps)) == Some(reps)
  {
    forall i | 0 <= i < |reps|
      ensures ParseReplacement(ReplacementLines(reps)[i]) == Some(reps[i])
    {
      assert reps[i] in reps;
      ReplacementLineParses(reps[i]);
    }
    ParseAllIs(ParseReplacement, ReplacementLines(reps), reps);
  }

  lemma MiddleSlice<T>(a: seq<T>, b: seq<T>, c: seq<T>)
    ensures (a + (b + c))[|a|..|a| + |b|] == b
    ensures (a + (b + c))[|a| + |b|..] == c
    ensures forall i :: 0 <= i < |a| ==> (a + (b + c))[i] == a[i]
    ensures forall i :: 0 <= i < |c| ==> (a + (b + c))[|a| + |b| + i] == c[i]
  {
  }

  lemma TailLoads(s: Session<Node>, head: Loaded)
    requires Storable(s)
    ensures LoadTail(TailLines(s), head) == Some(head.(replacements := s.replacements, backup := BackupName(s)))
  {
    ParseIntOfDecimal(|s.replacements|);
    ReplacementLinesParse(s.replacements);
    MiddleSlice([Decimal(|s.replacements|)], ReplacementLines(s.replacements), [BackupName(s)]);
    LoadTailOf(TailLines(s), head, |s.replacements|, s.replacements);
    assert TailLines(s)[1 + |s.replacements| + 0] == BackupName(s);
  }

  lemma LoadTailOf(tail: seq<string>, head: Loaded, n: nat, reps: seq<Replacement<Node>>)
    requires |tail| == n + 2 && ParseInt(tail[0]) == Some(n) && ParseReplacements(tail[1..1 + n]) == Some(reps)
    ensures LoadTail(tail, head) == Some(head.(replacements := reps, backup := tail[1 + n]))
  {
  }

  lemma RulePairsOfLines(actions: seq<Action<Node>>)
    ensures RulePairs(ActionLines(actions)) == RulePairsOf(actions)
  {
    forall i | 0 <= i < |actions|
      ensures RulePairs(ActionLines(actions))[i] == RulePairsOf(actions)[i]
    {
      ActionLinesAt(actions, i);
    }
    SameElements(RulePairs(ActionLines(actions)), RulePairsOf(actions));
  }

  lemma SameElements<T>(a: seq<T>, b: seq<T>)
    requires |a| == |b| && forall i :: 0 <= i < |a| ==> a[i] == b[i]
    ensures a == b
  {
  }

  lemma ActionLinesAt(actions: seq<Action<Node>>, i: nat)
    requires i < |actions|
    ensures ActionLines(actions)[2 * i] == VerbName(actions[i].verb)
    ensures ActionLines(actions)[2 * i + 1] == Hex(actions[i].node)
  {
    assert (2 * i) / 2 == i && (2 * i + 1) / 2 == i && (2 * i + 1) % 2 == 1;
  }

  lemma LoadOfParts(header: seq<string>, mid: seq<string>, tail: seq<string>, parent: Node, topmost: Node, n: nat)
    requires |header| == 5 && |mid| == 2 * n
    requires Bin(header[1]) == Some(parent) && Bin(header[2]) == Some(topmost) && ParseInt(header[4]) == Some(n)
    ensures LoadLines(header + (mid + tail))
         == LoadTail(tail, Loaded(parent, topmost, header[3] == "True", RulePairs(mid), [], ""))
  {
    MiddleSlice(header, mid, tail);
  }

  lemma StateLinesLoad(s: Session<Node>)
    requires Storable(s)
    ensures LoadLines(StateLines(s))
         == Some(Loaded(s.parent, s.topmost, s.keep, RulePairsOf(s.actions), s.replacements, BackupName(s)))
  {
    BinOfHex(s.parent);
    BinOfHex(s.topmost);
    ParseIntOfDecimal(|s.actions|);
    assert Header(s)[3] == "True" <==> s.keep;
    LoadOfParts(Header(s), ActionLines(s.actions), TailLines(s), s.parent, s.topmost, |s.actions|);
    RulePairsOfLines(s.actions);
    TailLoads(s, Loaded(s.parent, s.topmost, s.keep, RulePairsOf(s.actions), [], ""));
  }

  /** A session as it comes back: without a backup, the name of the backup reads as empty. */
  ghost function Reloaded(s: Session<Node>): Session<Node> {
    s.(backup := Some(BackupName(s)))
  }

  /** Reading what was written gives the session back. */
  lemma SavedSessionReadsBack(s: Session<Node>, lookup: map<string, Node>)
    requires Storable(s)
    ensures ReadSession(Unlines(StateLines(s)), lookup) == Some(Reloaded(s))
  {
    StateLinesAreLines(s);
    LinesOfUnlines(StateLines(s));
    StateLinesLoad(s);
    RulesReparse(s.actions, lookup);
  }

  // ---------------------------------------------------------------------------------------
  // Interrupted and uninterrupted runs

  /** One action of a run: with `interrupted` it stops, and a later process picks it up from the file. */
  datatype Leg = Leg(turn: Turn<Node>, interrupted: bool)

  predicate MayStop(a: Action<Node>, t: Turn<Node>) {
    a.verb != Base && a.verb != Drop && !(a.verb == Pick && t.inPlace)
  }

  /** Stop, write the state, read it back, continue the action, and mark the folds that are left. */
  function StopAndContinue(s: Session<Node>, t: Turn<Node>): Session<Node> {
    match ReadSession(Unlines(StateLines(s)), map[])
    case None => s
    case Some(read) =>
      var r := ResumeStep(read, t.wc, t.folded);
      r.(actions := MarkMultifolds(r.actions))
  }

  function RunLegs(s: Session<Node>, legs: seq<Leg>): Session<Node> {
    if legs == [] then s
    else
      RunLeg(RunLegs(s, legs[..|legs| - 1]), legs[|legs| - 1])
  }

  function RunLeg(s: Session<Node>, leg: Leg): Session<Node> {
    if leg.interrupted then StopAndContinue(s, leg.turn) else RunStep(s, leg.turn)
  }

  ghost function TurnsOf(legs: seq<Leg>): seq<Turn<Node>> {
    seq(|legs|, i requires 0 <= i < |legs| => legs[i].turn)
  }

  ghost predicate FullNodes(t: Turn<Node>) {
    |t.wc.dot| == 20 && |t.folded| == 20 && forall n :: n in t.wc.internal ==> |n| == 20
  }

  lemma StepStaysStorable(s: Session<Node>, t: Turn<Node>)
    requires Storable(s) && FullNodes(t)
    ensures Storable(RunStep(s, t))
  {
    if s.actions != [] {
      var a := s.actions[0];
      assert a in s.actions;
      assert forall b :: b in s.actions[1..] ==> b in s.actions;
      ActionRecordsFullNodes(a, s.parent, t);
    }
  }

  lemma ActionRecordsFullNodes(a: Action<Node>, parent: Node, t: Turn<Node>)
    requires |a.node| == 20 && |parent| == 20 && FullNodes(t)
    ensures var r := RunAction(a, parent, t);
            |r.0| == 20 && forall q :: q in r.1 ==> |q.prec| == 20 && forall n :: n in q.succs ==> |n| == 20
  {
    var r := RunAction(a, parent, t);
    forall q | q in r.1
      ensures |q.prec| == 20 && forall n :: n in q.succs ==> |n| == 20
    {
      if q in ReplacedBy(t.wc.internal, t.folded) {
        var i :| 0 <= i < |t.wc.internal| && q == Replacement(t.wc.internal[i], [t.folded]);
      }
    }
  }

  /** What is left of a plan whose inner folds have been marked. */
  ghost predicate TailOfMarked(actions: seq<Action<Node>>) {
    exists plan: seq<Action<Node>>, k: nat :: k <= |plan| && actions == MarkMultifolds(plan)[k..]
  }

  /** Stopping and continuing ends where running through would have, but for an absent backup name. */
  lemma StopAndContinueIsRun(s: Session<Node>, t: Turn<Node>)
    requires Storable(s) && s.actions != [] && TailOfMarked(s.actions) && MayStop(s.actions[0], t)
    ensures StopAndContinue(s, t) == Reloaded(RunStep(s, t))
  {
    SavedSessionReadsBack(s, map[]);
    RestIsMarked(s.actions);
  }

  lemma RestIsMarked(actions: seq<Action<Node>>)
    requires actions != [] && TailOfMarked(actions)
    ensures MarkMultifolds(actions[1..]) == actions[1..]
  {
    var plan: seq<Action<Node>>, k: nat :| k <= |plan| && actions == MarkMultifolds(plan)[k..];
    assert actions[1..] == MarkMultifolds(plan)[k + 1..];
    MarkingSuffixAgain(plan, k + 1);
  }

  lemma {:induction false} LegsKeepShape(plan: seq<Action<Node>>, s: Session<Node>, legs: seq<Leg>)
    requires |legs| <= |s.actions| && s.actions == MarkMultifolds(plan) && Storable(s)
    requires forall i :: 0 <= i < |legs| ==> FullNodes(legs[i].turn)
    ensures var r := RunAll(s, TurnsOf(legs));
            Storable(r) && r.actions == MarkMultifolds(plan)[|legs|..] && TailOfMarked(r.actions)
  {
    if legs != [] {
      var front := legs[..|legs| - 1];
      LegsKeepShape(plan, s, front);
      assert TurnsOf(legs)[..|legs| - 1] == TurnsOf(front);
      StepStaysStorable(RunAll(s, TurnsOf(front)), legs[|legs| - 1].turn);
    }
  }

  /**
   A session that is stopped, saved, reloaded and continued at any of its actions reaches the
   parent, replacements and remaining rules of the session that runs through.
   */
  lemma {:induction false} InterruptedRunsMatch(plan: seq<Action<Node>>, s: Session<Node>, legs: seq<Leg>)
    requires |legs| <= |s.actions| && s.actions == MarkMultifolds(plan) && Storable(s)
    requires forall i :: 0 <= i < |legs| ==>
               FullNodes(legs[i].turn) && (legs[i].interrupted ==> MayStop(s.actions[i], legs[i].turn))
    ensures Reloaded(RunLegs(s, legs)) == Reloaded(RunAll(s, TurnsOf(legs)))
  {
    if legs != [] {
      var front, leg := legs[..|legs| - 1], legs[|legs| - 1];
      InterruptedRunsMatch(plan, s, front);
      LegsKeepShape(plan, s, front);
      assert TurnsOf(legs)[..|legs| - 1] == TurnsOf(front);
      LegMatches(RunLegs(s, front), RunAll(s, TurnsOf(front)), leg);
    }
  }

  lemma LegMatches(left: Session<Node>, right: Session<Node>, leg: Leg)
    requires Reloaded(left) == Reloaded(right) && Storable(right) && right.actions != [] && TailOfMarked(right.actions)
    requires leg.interrupted ==> MayStop(right.actions[0], leg.turn)
    ensures Reloaded(RunLeg(left, leg)) == Reloaded(RunStep(right, leg.turn))
  {
    assert left == right.(backup := left.backup);
    if leg.interrupted {
      StopAndContinueIsRun(left, leg.turn);
    }
  }
}
