/** The mock text-to-map generator: a root titled by the first words of the
    content, one first-level node per usable sentence and up to four
    second-level nodes of words from it. The uuids and the random draws
    are inputs: `ids` names the id drawn for each node slot, and `Draws`
    the random numbers in `[0, 1)` the construction consumes. */
module Generator {
  import opened Types
  import opened Seqs
  import opened Layout

  type Nodes = map<Id, MindMapNode>

  datatype InputSource = TextInput | UrlInput | FileInput

  datatype NodeType = DefaultType | KeyPoint | Note

  function TypeName(t: NodeType): string {
    match t
    case DefaultType => "default"
    case KeyPoint => "keyPoint"
    case Note => "note"
  }

  /** The generation options; an absent option takes its default. */
  datatype Options = Options(
    inputType: InputSource,
    content: string,
    rootNodeType: Option<NodeType>,
    maxDepth: Option<int>,
    maxBranches: Option<int>)

  function RootType(o: Options): NodeType { if o.rootNodeType.Some? then o.rootNodeType.value else KeyPoint }
  function MaxDepth(o: Options): int { if o.maxDepth.Some? then o.maxDepth.value else 3 }
  function MaxBranches(o: Options): int { if o.maxBranches.Some? then o.maxBranches.value else 5 }

  /** The node a uuid is drawn for: the root, the first-level node of used
      sentence `i`, or second-level node `j` below it. */
  datatype Slot = RootSlot | FirstSlot(i: nat) | SecondSlot(i: nat, j: nat)

  /** The random draws, by the node they are drawn for. */
  datatype Draws = Draws(
    branchAngle: nat -> real,
    leafCount: nat -> real,
    leafAngle: (nat, nat) -> real,
    leafStart: (nat, nat) -> real)

  datatype Env = Env(ids: Slot -> Id, draws: Draws, centre: Position, trig: Trig)

  /** The uuid drawn for slot `s`. */
  function SlotId(ids: Slot -> Id, s: Slot): Id {
    ids(s)
  }

  /** Distinct slots get distinct uuids. */
  ghost predicate Injective(ids: Slot -> Id) {
    forall a, b :: SlotId(ids, a) == SlotId(ids, b) ==> a == b
  }

  // ---------------------------------------------------------------------
  // Text

  predicate IsTerminator(c: char) { c == '.' || c == '!' || c == '?' }

  /** The first terminator at or after `i`, or the end. */
  function NextTerminator(s: string, i: nat): (j: nat)
    requires i <= |s|
    ensures i <= j <= |s|
    ensures forall k | i <= k < j :: !IsTerminator(s[k])
    ensures j < |s| ==> IsTerminator(s[j])
    decreases |s| - i
  {
    if i == |s| || IsTerminator(s[i]) then i else NextTerminator(s, i + 1)
  }

  /** The end of the run of terminators starting at `i`. */
  function RunEnd(s: string, i: nat): (j: nat)
    requires i <= |s|
    ensures i <= j <= |s|
    ensures forall k | i <= k < j :: IsTerminator(s[k])
    ensures j < |s| ==> !IsTerminator(s[j])
    decreases |s| - i
  {
    if i < |s| && IsTerminator(s[i]) then RunEnd(s, i + 1) else i
  }

  /** `s.split(/[.!?]+/)`: the pieces between maximal runs of terminators;
      a leading or trailing run gives an empty first or last piece. */
  function Sentences(s: string): (r: seq<string>)
    ensures |r| >= 1
    ensures forall p | p in r :: forall c | c in p :: !IsTerminator(c)
    decreases |s|
  {
    var i := NextTerminator(s, 0);
    if i == |s| then
      assert forall c | c in s :: !IsTerminator(c);
      [s]
    else
      var j := RunEnd(s, i);
      var piece := s[..i];
      assert forall c | c in piece :: !IsTerminator(c);
      [piece] + Sentences(s[j..])
  }

  /** Text without terminators is one sentence. */
  lemma SentencesOfPlainText(s: string)
    requires forall k | 0 <= k < |s| :: !IsTerminator(s[k])
    ensures Sentences(s) == [s]
  {
    assert NextTerminator(s, 0) == |s|;
  }

  /** A run of terminators from `i` to `e` that ends the text or is followed
      by another character ends exactly at `e`. */
  lemma {:induction false} RunEndOf(s: string, i: nat, e: nat)
    requires i <= e <= |s| && forall k | i <= k < e :: IsTerminator(s[k])
    requires e == |s| || !IsTerminator(s[e])
    ensures RunEnd(s, i) == e
    decreases e - i
  {
    if i < e {
      RunEndOf(s, i + 1, e);
    }
  }

  /** Text without terminators, then a maximal run of terminators, then the
      rest: the first sentence is that text, and the others are the sentences
      of the rest. With `SentencesOfPlainText` this fixes the split of every
      text. */
  lemma SentencesCons(a: string, r: string, b: string)
    requires forall k | 0 <= k < |a| :: !IsTerminator(a[k])
    requires |r| > 0 && forall k | 0 <= k < |r| :: IsTerminator(r[k])
    requires b == [] || !IsTerminator(b[0])
    ensures Sentences(a + r + b) == [a] + Sentences(b)
  {
    var s := a + r + b;
    assert s[|a|] == r[0];
    assert NextTerminator(s, 0) == |a|;
    RunEndOf(s, |a|, |a| + |r|);
    assert s[..|a|] == a;
    assert s[|a| + |r|..] == b;
  }

  predicate NonBlank(s: string) { |Trim(s)| > 0 }

  /** The sentences that are used: the non-blank ones, at most `maxBranches`
      of them (a negative bound counts from the end, as `slice` does). */
  function Used(content: string, maxBranches: int): seq<string> {
    Slice(FilterBy(Sentences(content), s => NonBlank(s)), 0, maxBranches)
  }

  /** At most `maxBranches` sentences are used, each non-blank and free of
      terminators. */
  lemma UsedSentences(content: string, maxBranches: int)
    requires maxBranches >= 0
    ensures |Used(content, maxBranches)| <= maxBranches
    ensures forall s | s in Used(content, maxBranches) ::
      NonBlank(s) && forall c | c in s :: !IsTerminator(c)
  {
    var all := FilterBy(Sentences(content), s => NonBlank(s));
    SlicePrefix(all, maxBranches);
    forall s | s in Used(content, maxBranches)
      ensures NonBlank(s) && forall c | c in s :: !IsTerminator(c)
    {
      assert s in all;
    }
  }

  /** The root title: the first five space-separated words and `...`. */
  function RootText(content: string): (r: string)
    ensures |r| >= 3 && r[|r| - 3..] == "..."
  {
    Join(Slice(Split(content, ' '), 0, 5), " ") + "..."
  }

  /** Content of at most five words is the whole title. */
  lemma RootTextOfShortContent(content: string)
    requires Count(content, ' ') < 5
    ensures RootText(content) == content + "..."
  {
    var words := Split(content, ' ');
    SlicePrefix(words, 5);
    assert Slice(words, 0, 5) == words;
    JoinSplit(content, ' ');
    assert Join(words, " ") == content;
  }

  /** A first-level title: the sentence cut at 50 characters, with `...`
      exactly when something was cut. */
  function FirstText(sentence: string): (r: string)
    ensures |sentence| <= 50 ==> r == sentence
    ensures |sentence| > 50 ==> r == sentence[..50] + "..."
  {
    Slice(sentence, 0, 50) + (if |sentence| > 50 then "..." else "")
  }

  /** Node types cycle keyPoint, note, default by index. */
  function TypeFor(i: nat): (r: NodeType)
    ensures i % 3 == 0 <==> r == KeyPoint
    ensures i % 3 == 1 <==> r == Note
    ensures i % 3 == 2 <==> r == DefaultType
  {
    if i % 3 == 0 then KeyPoint else if i % 3 == 1 then Note else DefaultType
  }

  lemma TypeCycles(i: nat)
    ensures TypeFor(i + 3) == TypeFor(i)
  {
  }

  /** The words of more than three characters. */
  function Words(sentence: string): seq<string> {
    FilterBy(Split(sentence, ' '), w => |w| > 3)
  }

  /** The number of second-level nodes: none unless the depth allows it and
      the sentence is longer than 15; else one to four as drawn, but no
      more than there are words. */
  function LeafCount(sentence: string, maxDepth: int, draw: real): (n: int)
    ensures n <= 4 && n <= |Words(sentence)|
    ensures maxDepth < 2 || |sentence| <= 15 ==> n == 0
    ensures maxDepth >= 2 && |sentence| > 15 && 0.0 <= draw < 1.0 && |Words(sentence)| >= 1 ==> n >= 1
  {
    if maxDepth >= 2 && |sentence| > 15 then Min(Min((draw * 4.0).Floor + 1, |Words(sentence)|), 4) else 0
  }

  /** A second-level title: up to three consecutive words from a drawn
      start. For fewer than four words the start can be negative, and
      `slice` then counts it from the end, so fewer than three words can be
      left (one word of a one-word list, the last of a two-word list). */
  function LeafText(words: seq<string>, draw: real): string {
    var start := (draw * (|words| - 3) as real).Floor;
    Join(Slice(words, start, start + 3), " ")
  }

  /** A point at distance 250 from `c` in a drawn direction. */
  function Around(c: Position, draw: real, trig: Trig): Position {
    var angle := Mul(Mul(draw, trig.pi), 2.0);
    Position(c.x + Mul(trig.cos(angle), 250.0), c.y + Mul(trig.sin(angle), 250.0))
  }

  // ---------------------------------------------------------------------
  // Nodes

  function RootNode(o: Options, env: Env): MindMapNode {
    MindMapNode(env.ids(RootSlot), RootText(o.content), env.centre.x, env.centre.y, [], [], None, false,
                Some(TypeName(RootType(o))), None)
  }

  function FirstNode(i: nat, sentence: string, env: Env): MindMapNode {
    var p := Around(env.centre, env.draws.branchAngle(i), env.trig);
    MindMapNode(env.ids(FirstSlot(i)), FirstText(sentence), p.x, p.y, [], [env.ids(RootSlot)], None, false,
                Some(TypeName(TypeFor(i))), None)
  }

  function LeafNode(i: nat, j: nat, words: seq<string>, at: Position, env: Env): MindMapNode {
    var q := Around(at, env.draws.leafAngle(i, j), env.trig);
    MindMapNode(env.ids(SecondSlot(i, j)), LeafText(words, env.draws.leafStart(i, j)), q.x, q.y, [],
                [env.ids(FirstSlot(i))], None, false, Some(TypeName(TypeFor(j))), None)
  }

  /** Store `n` under its id, then append its id to the children of the
      node under `parentKey`. */
  function Attach(nodes: Nodes, parentKey: Id, n: MindMapNode): (r: Nodes)
    requires parentKey in nodes
    ensures r.Keys == nodes.Keys + {n.id}
  {
    var m := nodes[n.id := n];
    m[parentKey := m[parentKey].(children := m[parentKey].children + [n.id])]
  }

  /** The inner loop from `j` on: second-level nodes `j` to `n - 1` of used
      sentence `i`. */
  function Leaves(nodes: Nodes, env: Env, i: nat, words: seq<string>, at: Position, n: int, j: nat): (r: Nodes)
    requires env.ids(FirstSlot(i)) in nodes
    ensures nodes.Keys <= r.Keys
    decreases n - j
  {
    if j >= n then nodes
    else Leaves(Attach(nodes, env.ids(FirstSlot(i)), LeafNode(i, j, words, at, env)), env, i, words, at, n, j + 1)
  }

  /** One pass of the outer loop: a used sentence of more than five
      characters after trimming gives a first-level node and its leaves. */
  function Branch(nodes: Nodes, o: Options, env: Env, used: seq<string>, i: nat): (r: Nodes)
    requires i < |used| && env.ids(RootSlot) in nodes
    ensures nodes.Keys <= r.Keys
  {
    var sentence := Trim(used[i]);
    if |sentence| > 5 then
      var first := FirstNode(i, sentence, env);
      var m := Attach(nodes, env.ids(RootSlot), first);
      Leaves(m, env, i, Words(sentence), first.Pos(), LeafCount(sentence, MaxDepth(o), env.draws.leafCount(i)), 0)
    else nodes
  }

  /** The outer loop from `i` on. */
  function Branches(nodes: Nodes, o: Options, env: Env, used: seq<string>, i: nat): (r: Nodes)
    requires env.ids(RootSlot) in nodes
    ensures nodes.Keys <= r.Keys
    decreases |used| - i
  {
    if i >= |used| then nodes
    else Branches(Branch(nodes, o, env, used, i), o, env, used, i + 1)
  }

  /** The map `generateMindMapFromText` resolves to. */
  function FromText(o: Options, env: Env): MindMapData {
    var root := RootNode(o, env);
    MindMapData(Branches(map[root.id := root], o, env, Used(o.content, MaxBranches(o)), 0), root.id, [])
  }

  // ---------------------------------------------------------------------
  // The generator and its dispatch

  /** `generateMindMapFromText`: the outer loop over the used sentences. */
  method GenerateFromText(o: Options, env: Env) returns (r: MindMapData)
    ensures r == FromText(o, env)
  {
    var rootId := env.ids(RootSlot);
    var nodes: Nodes := map[rootId := RootNode(o, env)];
    var used := Used(o.content, MaxBranches(o));
    var i := 0;
    while i < |used|
      invariant 0 <= i <= |used| && rootId in nodes
      invariant Branches(nodes, o, env, used, i) == FromText(o, env).nodes
      decreases |used| - i
    {
      nodes := AddBranch(nodes, o, env, used, i);
      i := i + 1;
    }
    r := MindMapData(nodes, rootId, []);
  }

  /** One outer pass: the first-level node of a sentence of more than five
      characters, then the inner loop over its second-level nodes. */
  method AddBranch(nodes0: Nodes, o: Options, env: Env, used: seq<string>, i: nat) returns (nodes: Nodes)
    requires i < |used| && env.ids(RootSlot) in nodes0
    ensures nodes == Branch(nodes0, o, env, used, i)
  {
    nodes := nodes0;
    var sentence := Trim(used[i]);
    if |sentence| > 5 {
      var first := FirstNode(i, sentence, env);
      nodes := Attach(nodes, env.ids(RootSlot), first);
      var words := Words(sentence);
      var count := LeafCount(sentence, MaxDepth(o), env.draws.leafCount(i));
      ghost var start := nodes;
      var j := 0;
      while j < count
        invariant first.id in nodes
        invariant Leaves(nodes, env, i, words, first.Pos(), count, j) == Leaves(start, env, i, words, first.Pos(), count, 0)
        decreases count - j
      {
        nodes := Attach(nodes, first.id, LeafNode(i, j, words, first.Pos(), env));
        j := j + 1;
      }
    }
  }

  const FileTemplate: string :=
    "Content extracted from uploaded file. \n        This is a mock implementation that would normally parse the file.\n        The file would contain sections that would be converted to mind map branches.\n        Different parts of the document would become different nodes.\n        Images or charts might be extracted as special nodes."

  /** The text a url input is replaced by: the url between a fixed prefix
      and a fixed suffix. */
  const UrlPrefix: string := "Content extracted from "

  const UrlSuffix: string :=
    ". \n    This is a mock implementation that would normally fetch the URL content.\n    First key point from the website. This would contain actual extracted content.\n    Second important concept from the webpage. More details would be here.\n    Third section from the article that's relevant to your mind map.\n    The webpage might have a conclusion or summary section that would appear here."

  function UrlTemplate(url: string): string {
    UrlPrefix + url + UrlSuffix
  }

  /** The content the text path is given. */
  function ContentFor(o: Options): string {
    match o.inputType
    case UrlInput => UrlTemplate(o.content)
    case FileInput => FileTemplate
    case TextInput => o.content
  }

  /** `generateMindMap`: every input goes through the text path, url and
      file inputs with their content replaced. */
  function Generate(o: Options, env: Env): (r: MindMapData)
    ensures o.inputType == TextInput ==> r == FromText(o, env)
    ensures r.connections == [] && r.rootId == env.ids(RootSlot)
  {
    FromText(o.(content := ContentFor(o)), env)
  }

  /** A file input ignores the content it was given, and a url input sees
      it only through the template. */
  lemma GenerateUsesTemplates(o: Options, other: string, env: Env)
    ensures o.inputType == FileInput ==> Generate(o, env) == Generate(o.(content := other), env)
    ensures o.inputType == UrlInput ==>
      Generate(o, env) == FromText(o.(content := UrlTemplate(o.content)), env)
  {
    var o2 := o.(content := other);
    if o.inputType == FileInput {
      assert ContentFor(o2) == ContentFor(o);
      assert o2.(content := ContentFor(o2)) == o.(content := ContentFor(o));
    } else if o.inputType == UrlInput {
      assert ContentFor(o) == UrlTemplate(o.content);
    }
  }

  // ---------------------------------------------------------------------
  // The shape of the result

  /** Every listed child and parent is a key. */
  ghost predicate Closed(nodes: Nodes) {
    forall k | k in nodes ::
      (forall c | c in nodes[k].children :: c in nodes) && (forall p | p in nodes[k].parentIds :: p in nodes)
  }

  /** A tree over the arrays: the root has no parent and every other node
      exactly one. */
  ghost predicate TreeShape(nodes: Nodes, rootId: Id) {
    && rootId in nodes && nodes[rootId].parentIds == []
    && forall k | k in nodes && k != rootId :: |nodes[k].parentIds| == 1
  }

  ghost predicate Good(nodes: Nodes, rootId: Id) {
    IdsMatchKeys(nodes) && Mirrored(nodes) && Closed(nodes) && TreeShape(nodes, rootId)
  }

  /** Slot `s` has been given a node once the loops have reached used
      sentence `i` and, within it, second-level node `j` (`j == -1` before
      the first-level node of sentence `i` is made). */
  predicate Made(s: Slot, i: nat, j: int) {
    match s
    case RootSlot => true
    case FirstSlot(a) => a < i || (a == i && j >= 0)
    case SecondSlot(a, b) => a < i || (a == i && b < j)
  }

  /** The ids of the slots not made yet are not keys. */
  ghost predicate NotYet(nodes: Nodes, ids: Slot -> Id, i: nat, j: int) {
    forall s {:trigger Made(s, i, j)} :: !Made(s, i, j) ==> ids(s) !in nodes
  }

  /** Attaching a fresh node stores it under its id and changes nothing
      else but the parent's children. */
  lemma AttachFrame(nodes: Nodes, p: Id, n: MindMapNode)
    requires p in nodes && n.id !in nodes
    ensures var r := Attach(nodes, p, n);
      && r[n.id] == n.(children := n.children)
      && r[p] == nodes[p].(children := nodes[p].children + [n.id])
      && forall k | k in nodes && k != p :: r[k] == nodes[k]
  {
  }

  /** Attaching a fresh childless node with the parent as its only parent
      keeps the map good. */
  lemma AttachGood(nodes: Nodes, rootId: Id, p: Id, n: MindMapNode)
    requires Good(nodes, rootId) && p in nodes
    requires n.id !in nodes && n.children == [] && n.parentIds == [p]
    ensures Good(Attach(nodes, p, n), rootId)
  {
    var r := Attach(nodes, p, n);
    forall a, c | a in r && c in r
      ensures c in r[a].children <==> a in r[c].parentIds
    {
      if a != n.id && c != n.id {
        assert c in nodes[a].children <==> a in nodes[c].parentIds;
      }
    }
  }

  /** Two appends to a node's children are one append of both. */
  lemma AppendTwice(a: MindMapNode, b: MindMapNode, c: MindMapNode, x: seq<Id>, y: seq<Id>)
    requires b == a.(children := a.children + x) && c == b.(children := b.children + y)
    ensures c == a.(children := a.children + (x + y))
  {
    assert a.children + x + y == a.children + (x + y);
  }

  /** A second-level slot not made yet has a fresh id, and attaching its
      node moves the stage on by one. */
  lemma LeafStep(nodes: Nodes, env: Env, i: nat, words: seq<string>, at: Position, j: nat)
    requires Injective(env.ids) && env.ids(FirstSlot(i)) in nodes && NotYet(nodes, env.ids, i, j)
    ensures LeafNode(i, j, words, at, env).id !in nodes
    ensures NotYet(Attach(nodes, env.ids(FirstSlot(i)), LeafNode(i, j, words, at, env)), env.ids, i, j + 1)
  {
    var m := Attach(nodes, env.ids(FirstSlot(i)), LeafNode(i, j, words, at, env));
    assert !Made(SecondSlot(i, j), i, j);
    forall s | !Made(s, i, j + 1)
      ensures env.ids(s) !in m
    {
      assert !Made(s, i, j);
      assert SlotId(env.ids, s) != SlotId(env.ids, SecondSlot(i, j));
    }
  }

  /** After the inner loop every second-level slot of sentence `i` counts
      as made. */
  lemma {:induction false} LeavesFresh(nodes: Nodes, env: Env, i: nat, words: seq<string>, at: Position, n: int, j: nat)
    requires Injective(env.ids) && env.ids(FirstSlot(i)) in nodes && NotYet(nodes, env.ids, i, j)
    ensures NotYet(Leaves(nodes, env, i, words, at, n, j), env.ids, i + 1, -1)
    decreases n - j
  {
    if j >= n {
      forall s | !Made(s, i + 1, -1)
        ensures env.ids(s) !in nodes
      {
        assert !Made(s, i, j);
      }
    } else {
      LeafStep(nodes, env, i, words, at, j);
      LeavesFresh(Attach(nodes, env.ids(FirstSlot(i)), LeafNode(i, j, words, at, env)), env, i, words, at, n, j + 1);
    }
  }

  /** The inner loop keeps the map good. */
  lemma {:induction false} LeavesGood(nodes: Nodes, env: Env, i: nat, words: seq<string>, at: Position, n: int, j: nat)
    requires Injective(env.ids) && Good(nodes, env.ids(RootSlot))
    requires env.ids(FirstSlot(i)) in nodes && NotYet(nodes, env.ids, i, j)
    ensures Good(Leaves(nodes, env, i, words, at, n, j), env.ids(RootSlot))
    decreases n - j
  {
    if j < n {
      var leaf := LeafNode(i, j, words, at, env);
      LeafStep(nodes, env, i, words, at, j);
      AttachGood(nodes, env.ids(RootSlot), env.ids(FirstSlot(i)), leaf);
      LeavesGood(Attach(nodes, env.ids(FirstSlot(i)), leaf), env, i, words, at, n, j + 1);
    }
  }

  /** Of the nodes already there, the inner loop changes only the
      first-level node, whose children gain exactly the new ids. */
  lemma {:induction false} LeavesFrame(nodes: Nodes, env: Env, i: nat, words: seq<string>, at: Position, n: int, j: nat)
    requires Injective(env.ids) && env.ids(FirstSlot(i)) in nodes && NotYet(nodes, env.ids, i, j)
    ensures var r := Leaves(nodes, env, i, words, at, n, j);
      && (forall k | k in nodes && k != env.ids(FirstSlot(i)) :: r[k] == nodes[k])
      && r[env.ids(FirstSlot(i))] == nodes[env.ids(FirstSlot(i))].(children :=
           nodes[env.ids(FirstSlot(i))].children + LeafIds(env.ids, i, j, n))
    decreases n - j
  {
    if j < n {
      var f := env.ids(FirstSlot(i));
      var leaf := LeafNode(i, j, words, at, env);
      LeafStep(nodes, env, i, words, at, j);
      AttachFrame(nodes, f, leaf);
      var m := Attach(nodes, f, leaf);
      LeavesFrame(m, env, i, words, at, n, j + 1);
      assert LeafIds(env.ids, i, j, n) == [leaf.id] + LeafIds(env.ids, i, j + 1, n);
      var r := Leaves(m, env, i, words, at, n, j + 1);
      AppendTwice(nodes[f], m[f], r[f], [leaf.id], LeafIds(env.ids, i, j + 1, n));
    }
  }

  /** The inner loop stores each second-level node under its id, and each
      stays as stored. */
  lemma {:induction false} LeavesMade(nodes: Nodes, env: Env, i: nat, words: seq<string>, at: Position, n: int, j: nat)
    requires Injective(env.ids) && env.ids(FirstSlot(i)) in nodes && NotYet(nodes, env.ids, i, j)
    ensures var r := Leaves(nodes, env, i, words, at, n, j);
      forall b | j <= b < n :: env.ids(SecondSlot(i, b)) in r && r[env.ids(SecondSlot(i, b))] == LeafNode(i, b, words, at, env)
    decreases n - j
  {
    if j < n {
      var f := env.ids(FirstSlot(i));
      var leaf := LeafNode(i, j, words, at, env);
      LeafStep(nodes, env, i, words, at, j);
      AttachFrame(nodes, f, leaf);
      var m := Attach(nodes, f, leaf);
      var r := Leaves(m, env, i, words, at, n, j + 1);
      assert r == Leaves(nodes, env, i, words, at, n, j);
      LeavesMade(m, env, i, words, at, n, j + 1);
      LeavesFrame(m, env, i, words, at, n, j + 1);
      assert leaf.id in m && leaf.id != f;
      assert r[leaf.id] == leaf;
      forall b | j <= b < n
        ensures env.ids(SecondSlot(i, b)) in r && r[env.ids(SecondSlot(i, b))] == LeafNode(i, b, words, at, env)
      {
        if b > j {
          assert j + 1 <= b < n;
        }
      }
    }
  }

  /** The ids of second-level nodes `j` to `n - 1` of sentence `i`. */
  function LeafIds(ids: Slot -> Id, i: nat, j: nat, n: int): (r: seq<Id>)
    ensures |r| == if j < n then n - j else 0
    decreases n - j
  {
    if j >= n then [] else [ids(SecondSlot(i, j))] + LeafIds(ids, i, j + 1, n)
  }

  /** The first-level id sentence `i` contributes, if any. */
  function KeptId(env: Env, used: seq<string>, i: nat): (r: seq<Id>)
    requires i < |used|
  {
    if |Trim(used[i])| > 5 then [env.ids(FirstSlot(i))] else []
  }

  /** The first-level ids of sentences `i` on. */
  function KeptIds(env: Env, used: seq<string>, i: nat): (r: seq<Id>)
    ensures |r| <= |used| - i || (i >= |used| && r == [])
    decreases |used| - i
  {
    if i >= |used| then [] else KeptId(env, used, i) + KeptIds(env, used, i + 1)
  }

  /** A kept sentence's first-level slot has a fresh id, and attaching its
      node moves the stage on to its second-level nodes. */
  lemma FirstStep(nodes: Nodes, env: Env, i: nat, sentence: string)
    requires Injective(env.ids) && env.ids(RootSlot) in nodes && NotYet(nodes, env.ids, i, -1)
    ensures FirstNode(i, sentence, env).id !in nodes
    ensures NotYet(Attach(nodes, env.ids(RootSlot), FirstNode(i, sentence, env)), env.ids, i, 0)
  {
    var m := Attach(nodes, env.ids(RootSlot), FirstNode(i, sentence, env));
    assert !Made(FirstSlot(i), i, -1);
    forall s | !Made(s, i, 0)
      ensures env.ids(s) !in m
    {
      assert !Made(s, i, -1);
      assert SlotId(env.ids, s) != SlotId(env.ids, FirstSlot(i));
    }
  }

  /** After the pass over a kept sentence every slot of it counts as made. */
  lemma KeptFresh(nodes: Nodes, env: Env, i: nat, sentence: string, n: int)
    requires Injective(env.ids) && env.ids(RootSlot) in nodes && NotYet(nodes, env.ids, i, -1)
    ensures var first := FirstNode(i, sentence, env);
      NotYet(Leaves(Attach(nodes, env.ids(RootSlot), first), env, i, Words(sentence), first.Pos(), n, 0), env.ids, i + 1, -1)
  {
    var first := FirstNode(i, sentence, env);
    FirstStep(nodes, env, i, sentence);
    LeavesFresh(Attach(nodes, env.ids(RootSlot), first), env, i, Words(sentence), first.Pos(), n, 0);
  }

  /** After the pass over a dropped sentence every slot of it counts as
      made. */
  lemma DroppedFresh(nodes: Nodes, ids: Slot -> Id, i: nat)
    requires NotYet(nodes, ids, i, -1)
    ensures NotYet(nodes, ids, i + 1, -1)
  {
    forall s | !Made(s, i + 1, -1)
      ensures ids(s) !in nodes
    {
      assert !Made(s, i, -1);
    }
  }

  /** After one outer pass every slot of sentence `i` counts as made. */
  lemma BranchFresh(nodes: Nodes, o: Options, env: Env, used: seq<string>, i: nat)
    requires i < |used| && Injective(env.ids) && env.ids(RootSlot) in nodes
    requires NotYet(nodes, env.ids, i, -1)
    ensures NotYet(Branch(nodes, o, env, used, i), env.ids, i + 1, -1)
  {
    var sentence := Trim(used[i]);
    if |sentence| > 5 {
      KeptFresh(nodes, env, i, sentence, LeafCount(sentence, MaxDepth(o), env.draws.leafCount(i)));
    } else {
      DroppedFresh(nodes, env.ids, i);
    }
  }

  /** One outer pass keeps the map good. */
  lemma BranchGood(nodes: Nodes, o: Options, env: Env, used: seq<string>, i: nat)
    requires i < |used| && Injective(env.ids) && Good(nodes, env.ids(RootSlot))
    requires NotYet(nodes, env.ids, i, -1)
    ensures Good(Branch(nodes, o, env, used, i), env.ids(RootSlot))
  {
    var rootId := env.ids(RootSlot);
    var sentence := Trim(used[i]);
    if |sentence| > 5 {
      var first := FirstNode(i, sentence, env);
      FirstStep(nodes, env, i, sentence);
      AttachGood(nodes, rootId, rootId, first);
      var m := Attach(nodes, rootId, first);
      LeavesGood(m, env, i, Words(sentence), first.Pos(), LeafCount(sentence, MaxDepth(o), env.draws.leafCount(i)), 0);
    }
  }

  /** Of the nodes already there, one outer pass changes only the root,
      whose children gain the kept first-level id. */
  lemma BranchFrame(nodes: Nodes, o: Options, env: Env, used: seq<string>, i: nat)
    requires i < |used| && Injective(env.ids) && env.ids(RootSlot) in nodes
    requires NotYet(nodes, env.ids, i, -1)
    ensures var r := Branch(nodes, o, env, used, i);
      && (forall k | k in nodes && k != env.ids(RootSlot) :: r[k] == nodes[k])
      && r[env.ids(RootSlot)] == nodes[env.ids(RootSlot)].(children :=
           nodes[env.ids(RootSlot)].children + KeptId(env, used, i))
  {
    var rootId := env.ids(RootSlot);
    var sentence := Trim(used[i]);
    if |sentence| > 5 {
      var first := FirstNode(i, sentence, env);
      FirstStep(nodes, env, i, sentence);
      AttachFrame(nodes, rootId, first);
      var m := Attach(nodes, rootId, first);
      LeavesFrame(m, env, i, Words(sentence), first.Pos(), LeafCount(sentence, MaxDepth(o), env.draws.leafCount(i)), 0);
    }
  }

  /** The outer loop from `i` on keeps the map good. */
  lemma {:induction false} BranchesGood(nodes: Nodes, o: Options, env: Env, used: seq<string>, i: nat)
    requires Injective(env.ids) && Good(nodes, env.ids(RootSlot))
    requires NotYet(nodes, env.ids, i, -1)
    ensures Good(Branches(nodes, o, env, used, i), env.ids(RootSlot))
    decreases |used| - i
  {
    if i < |used| {
      BranchGood(nodes, o, env, used, i);
      BranchFresh(nodes, o, env, used, i);
      BranchesGood(Branch(nodes, o, env, used, i), o, env, used, i + 1);
    }
  }

  /** Of the nodes already there, the outer loop from `i` on changes only
      the root, whose children gain exactly the kept first-level ids. */
  lemma {:induction false} BranchesFrame(nodes: Nodes, o: Options, env: Env, used: seq<string>, i: nat)
    requires Injective(env.ids) && env.ids(RootSlot) in nodes
    requires NotYet(nodes, env.ids, i, -1)
    ensures var r := Branches(nodes, o, env, used, i);
      && (forall k | k in nodes && k != env.ids(RootSlot) :: r[k] == nodes[k])
      && r[env.ids(RootSlot)] == nodes[env.ids(RootSlot)].(children :=
           nodes[env.ids(RootSlot)].children + KeptIds(env, used, i))
    decreases |used| - i
  {
    if i < |used| {
      var rootId := env.ids(RootSlot);
      BranchFrame(nodes, o, env, used, i);
      BranchFresh(nodes, o, env, used, i);
      var m := Branch(nodes, o, env, used, i);
      BranchesFrame(m, o, env, used, i + 1);
      assert KeptIds(env, used, i) == KeptId(env, used, i) + KeptIds(env, used, i + 1);
      var r := Branches(m, o, env, used, i + 1);
      AppendTwice(nodes[rootId], m[rootId], r[rootId], KeptId(env, used, i), KeptIds(env, used, i + 1));
    }
  }

  /** The start of the construction: the root alone. */
  lemma StartGood(o: Options, env: Env)
    requires Injective(env.ids)
    ensures var root := RootNode(o, env);
      Good(map[root.id := root], root.id) && NotYet(map[root.id := root], env.ids, 0, -1)
  {
    var root := RootNode(o, env);
    forall s | !Made(s, 0, -1)
      ensures env.ids(s) !in map[root.id := root]
    {
      assert SlotId(env.ids, s) != SlotId(env.ids, RootSlot);
    }
  }

  /** The generated map is a tree mirrored in both arrays: every node is
      stored under its id, listed children and parents exist, the root has
      no parent, every other node has exactly one, and each child is listed
      by its parent. */
  lemma GeneratedTree(o: Options, env: Env)
    requires Injective(env.ids)
    ensures var r := FromText(o, env);
      && Good(r.nodes, r.rootId)
      && r.rootId == env.ids(RootSlot) && r.connections == []
  {
    var root := RootNode(o, env);
    StartGood(o, env);
    BranchesGood(map[root.id := root], o, env, Used(o.content, MaxBranches(o)), 0);
  }

  /** The generated root keeps its title, type and place at the centre; its
      children are the kept first-level nodes, one per used sentence at
      most. */
  lemma GeneratedRoot(o: Options, env: Env)
    requires Injective(env.ids)
    ensures var r := FromText(o, env);
      && r.nodes[r.rootId] == RootNode(o, env).(children := KeptIds(env, Used(o.content, MaxBranches(o)), 0))
      && |r.nodes[r.rootId].children| <= |Used(o.content, MaxBranches(o))|
  {
    var root := RootNode(o, env);
    StartGood(o, env);
    BranchesFrame(map[root.id := root], o, env, Used(o.content, MaxBranches(o)), 0);
  }

  /** The nodes of kept sentence `i` are in `r`: its first-level node, with
      exactly its second-level nodes as children, and those nodes. */
  ghost predicate BranchIn(r: Nodes, o: Options, env: Env, used: seq<string>, i: nat)
    requires i < |used|
  {
    var sentence := Trim(used[i]);
    var first := FirstNode(i, sentence, env);
    var n := LeafCount(sentence, MaxDepth(o), env.draws.leafCount(i));
    && first.id in r
    && r[first.id] == first.(children := LeafIds(env.ids, i, 0, n))
    && forall b | 0 <= b < n :: env.ids(SecondSlot(i, b)) in r
         && r[env.ids(SecondSlot(i, b))] == LeafNode(i, b, Words(sentence), first.Pos(), env)
  }

  /** The pass over a kept sentence makes its nodes. */
  lemma BranchMade(nodes: Nodes, o: Options, env: Env, used: seq<string>, i: nat)
    requires i < |used| && |Trim(used[i])| > 5
    requires Injective(env.ids) && env.ids(RootSlot) in nodes && NotYet(nodes, env.ids, i, -1)
    ensures BranchIn(Branch(nodes, o, env, used, i), o, env, used, i)
  {
    var sentence := Trim(used[i]);
    var first := FirstNode(i, sentence, env);
    var n := LeafCount(sentence, MaxDepth(o), env.draws.leafCount(i));
    FirstStep(nodes, env, i, sentence);
    AttachFrame(nodes, env.ids(RootSlot), first);
    var m := Attach(nodes, env.ids(RootSlot), first);
    LeavesFrame(m, env, i, Words(sentence), first.Pos(), n, 0);
    LeavesMade(m, env, i, Words(sentence), first.Pos(), n, 0);
  }

  /** Later passes keep the nodes of a kept sentence as they are. */
  lemma BranchInKept(r: Nodes, o: Options, env: Env, used: seq<string>, i: nat)
    requires i < |used| && Injective(env.ids) && env.ids(RootSlot) in r
    requires NotYet(r, env.ids, i + 1, -1) && BranchIn(r, o, env, used, i)
    ensures BranchIn(Branches(r, o, env, used, i + 1), o, env, used, i)
  {
    BranchesFrame(r, o, env, used, i + 1);
    var sentence := Trim(used[i]);
    var n := LeafCount(sentence, MaxDepth(o), env.draws.leafCount(i));
    assert SlotId(env.ids, FirstSlot(i)) != SlotId(env.ids, RootSlot);
    forall b | 0 <= b < n
      ensures env.ids(SecondSlot(i, b)) != env.ids(RootSlot)
    {
      assert SlotId(env.ids, SecondSlot(i, b)) != SlotId(env.ids, RootSlot);
    }
  }

  /** The outer loop from `i` is one pass followed by the loop from `i + 1`. */
  lemma BranchesStep(nodes: Nodes, o: Options, env: Env, used: seq<string>, i: nat)
    requires i < |used| && env.ids(RootSlot) in nodes
    ensures Branches(nodes, o, env, used, i) == Branches(Branch(nodes, o, env, used, i), o, env, used, i + 1)
  {
  }

  /** The outer loop from `i` makes the nodes of every kept sentence `k`
      from `i` on. */
  lemma {:induction false} BranchesMade(nodes: Nodes, o: Options, env: Env, used: seq<string>, i: nat, k: nat)
    requires i <= k < |used| && |Trim(used[k])| > 5
    requires Injective(env.ids) && env.ids(RootSlot) in nodes && NotYet(nodes, env.ids, i, -1)
    ensures BranchIn(Branches(nodes, o, env, used, i), o, env, used, k)
    decreases k - i, 1
  {
    if i == k {
      BranchesMadeFirst(nodes, o, env, used, k);
    } else {
      BranchesMadeLater(nodes, o, env, used, i, k);
    }
  }

  /** The outer loop from `i` is one pass and then the loop from `i + 1`,
      which makes the nodes of a later sentence `k`. */
  lemma {:induction false} BranchesMadeLater(nodes: Nodes, o: Options, env: Env, used: seq<string>, i: nat, k: nat)
    requires i < k < |used| && |Trim(used[k])| > 5
    requires Injective(env.ids) && env.ids(RootSlot) in nodes && NotYet(nodes, env.ids, i, -1)
    ensures BranchIn(Branches(nodes, o, env, used, i), o, env, used, k)
    decreases k - i, 0
  {
    BranchesStep(nodes, o, env, used, i);
    BranchFresh(nodes, o, env, used, i);
    var mid := Branch(nodes, o, env, used, i);
    BranchesMade(mid, o, env, used, i + 1, k);
  }

  /** The outer loop from `i` makes the nodes of sentence `i` and keeps them. */
  lemma BranchesMadeFirst(nodes: Nodes, o: Options, env: Env, used: seq<string>, i: nat)
    requires i < |used| && |Trim(used[i])| > 5
    requires Injective(env.ids) && env.ids(RootSlot) in nodes && NotYet(nodes, env.ids, i, -1)
    ensures BranchIn(Branches(nodes, o, env, used, i), o, env, used, i)
  {
    BranchesStep(nodes, o, env, used, i);
    BranchFresh(nodes, o, env, used, i);
    BranchMade(nodes, o, env, used, i);
    BranchInKept(Branch(nodes, o, env, used, i), o, env, used, i);
  }

  /** A kept sentence gives its first-level node: its cut title, its type by
      index, the root as its only parent, and as children exactly its
      second-level nodes, each holding up to three consecutive words
      (`LeafText`) with its type by index
      and that node as its only parent. */
  lemma GeneratedBranch(o: Options, env: Env, i: nat)
    requires Injective(env.ids)
    requires i < |Used(o.content, MaxBranches(o))| && |Trim(Used(o.content, MaxBranches(o))[i])| > 5
    ensures BranchIn(FromText(o, env).nodes, o, env, Used(o.content, MaxBranches(o)), i)
  {
    var root := RootNode(o, env);
    StartGood(o, env);
    BranchesMade(map[root.id := root], o, env, Used(o.content, MaxBranches(o)), 0, i);
  }
}
