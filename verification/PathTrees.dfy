/**
  The pattern trie as the broker keeps it: nodes linked by their levels and
  changed in place. The tree is proved against the registry it stands for.
 */
module PathTrees {
  import opened Prelude
  import opened SortedSearch
  import opened TopicPaths
  import opened PatternRegistry

  class PathNode {
    var unmatch: seq<Session>
    var childs: map<Level, PathNode>
    /** The levels from the root to this node. */
    ghost const place: Path

    constructor (ghost place: Path)
      ensures unmatch == [] && childs == map[] && this.place == place
    {
      unmatch, childs := [], map[];
      this.place := place;
    }
  }

  // ---- The shape of a tree, as values ----

  /** What a node holds: the levels of its children and its own list. */
  datatype Cell = Cell(kids: set<Level>, list: seq<Session>)

  type Cells = map<Path, Cell>
  type Places = map<Path, PathNode>

  /** The cell at p hangs from the cell one level up. */
  ghost predicate Hangs(cells: Cells, p: Path) {
    p == [] || (p[..|p| - 1] in cells && p[|p| - 1] in cells[p[..|p| - 1]].kids)
  }

  /** Every child of the cell at p is there, and its own list is ordered. */
  ghost predicate Sound(cells: Cells, p: Path)
    requires p in cells
  {
    SortedSessions(cells[p].list) && forall l :: l in cells[p].kids ==> p + [l] in cells
  }

  ghost predicate IsTree(cells: Cells) {
    && [] in cells
    && (forall p {:trigger Hangs(cells, p)} :: p in cells ==> Hangs(cells, p))
    && (forall p {:trigger Sound(cells, p)} :: p in cells ==> Sound(cells, p))
  }

  /** The cells that hold something. */
  ghost function NonEmpty(cells: Cells): Registry {
    map p | p in cells && cells[p].list != [] :: cells[p].list
  }

  lemma NonEmptyAt(cells: Cells, p: Path)
    ensures SessionsAt(NonEmpty(cells), p) == if p in cells then cells[p].list else []
  {
  }

  /** A child is listed exactly when its place is taken. */
  lemma ChildPlace(cells: Cells, at: Path, l: Level)
    requires IsTree(cells) && at in cells
    ensures l in cells[at].kids <==> at + [l] in cells
  {
    var p := at + [l];
    assert p[..|p| - 1] == at && p[|p| - 1] == l;
    assert Sound(cells, at);
    if p in cells { assert Hangs(cells, p); }
  }

  ghost function Grown(cells: Cells, at: Path, key: Level): Cells
    requires at in cells
  {
    cells[at := cells[at].(kids := cells[at].kids + {key})][at + [key] := Cell({}, [])]
  }

  lemma GrownSound(cells: Cells, at: Path, key: Level, p: Path)
    requires IsTree(cells) && at in cells && key !in cells[at].kids && at + [key] !in cells
    requires p in Grown(cells, at, key)
    ensures Hangs(Grown(cells, at, key), p) && Sound(Grown(cells, at, key), p)
  {
    var place, grown := at + [key], Grown(cells, at, key);
    if p == place {
      assert ClientIds([]) == [];
      assert place[..|place| - 1] == at && place[|place| - 1] == key && place != at;
    } else {
      assert Hangs(cells, p) && Sound(cells, p);
      assert forall l :: l in grown[p].kids ==> l in cells[p].kids || (p == at && l == key);
    }
  }

  lemma GrowKeepsTree(cells: Cells, at: Path, key: Level)
    requires IsTree(cells) && at in cells && key !in cells[at].kids
    ensures at + [key] !in cells && IsTree(Grown(cells, at, key))
  {
    var grown := Grown(cells, at, key);
    ChildPlace(cells, at, key);
    forall p | p in grown ensures Hangs(grown, p) && Sound(grown, p) { GrownSound(cells, at, key, p); }
  }

  lemma GrownRegistry(cells: Cells, at: Path, key: Level)
    requires at in cells && at + [key] !in cells
    ensures NonEmpty(Grown(cells, at, key)) == NonEmpty(cells)
  {
  }

  ghost function Relisted(cells: Cells, at: Path, list: seq<Session>): Cells
    requires at in cells
  {
    cells[at := cells[at].(list := list)]
  }

  lemma RelistedSound(cells: Cells, at: Path, list: seq<Session>, p: Path)
    requires IsTree(cells) && at in cells && SortedSessions(list) && p in cells
    ensures Hangs(Relisted(cells, at, list), p) && Sound(Relisted(cells, at, list), p)
  {
    assert Hangs(cells, p) && Sound(cells, p);
  }

  lemma RelistKeepsTree(cells: Cells, at: Path, list: seq<Session>)
    requires IsTree(cells) && at in cells && SortedSessions(list)
    ensures IsTree(Relisted(cells, at, list))
  {
    var cells' := Relisted(cells, at, list);
    forall p | p in cells' ensures Hangs(cells', p) && Sound(cells', p) { RelistedSound(cells, at, list, p); }
  }

  lemma RelistedRegistry(cells: Cells, at: Path, list: seq<Session>)
    requires at in cells
    ensures NonEmpty(Relisted(cells, at, list)) == Put(NonEmpty(cells), at, list)
  {
  }

  /** Below a place that is not taken there is nothing. */
  lemma {:induction false} NotBelow(cells: Cells, p: Path, q: Path)
    requires IsTree(cells) && p !in cells && p <= q
    ensures q !in cells
    decreases |q|
  {
    if p != q && q in cells {
      assert Hangs(cells, q);
      assert q[..|q| - 1][..|p|] == p;
      NotBelow(cells, p, q[..|q| - 1]);
    }
  }

  lemma {:induction false} NothingToCollect(cells: Cells, p: Path, topic: Path)
    requires IsTree(cells) && p !in cells
    ensures Collect(NonEmpty(cells), p, topic) == []
    decreases |topic|
  {
    if topic != [] {
      NotBelow(cells, p, p + [Hash]);
      NotBelow(cells, p, p + [Plus]);
      NotBelow(cells, p, p + [topic[0]]);
      NothingToCollect(cells, p + [Plus], topic[1..]);
      NothingToCollect(cells, p + [topic[0]], topic[1..]);
    }
  }

  /** The part of the lookup below one child: nothing, if there is no such child. */
  ghost function Below(cells: Cells, at: Path, l: Level, rest: Path): seq<Session>
    requires at in cells
  {
    if l in cells[at].kids then Collect(NonEmpty(cells), at + [l], rest) else []
  }

  /** At the end of the topic a child contributes its own list. */
  lemma BelowFinal(cells: Cells, at: Path, l: Level)
    requires IsTree(cells) && at in cells && l in cells[at].kids
    ensures at + [l] in cells && Below(cells, at, l, []) == cells[at + [l]].list
  {
    ChildPlace(cells, at, l);
    NonEmptyAt(cells, at + [l]);
  }

  /** What is collected at one node: three children, two of them with the rest of the topic. */
  lemma CollectAt(cells: Cells, at: Path, topic: Path)
    requires IsTree(cells) && at in cells && topic != []
    ensures Collect(NonEmpty(cells), at, topic)
         == Below(cells, at, Hash, []) + Below(cells, at, Plus, topic[1..]) + Below(cells, at, topic[0], topic[1..])
  {
    ChildPlace(cells, at, Hash);
    ChildPlace(cells, at, Plus);
    ChildPlace(cells, at, topic[0]);
    NonEmptyAt(cells, at + [Hash]);
    if Plus !in cells[at].kids { NothingToCollect(cells, at + [Plus], topic[1..]); }
    if topic[0] !in cells[at].kids { NothingToCollect(cells, at + [topic[0]], topic[1..]); }
  }

  /** The same, appended to what was collected before. */
  lemma StepTotal(cells: Cells, at: Path, topic: Path, i: nat, values: seq<Session>)
    requires IsTree(cells) && at in cells && i < |topic|
    ensures values + Collect(NonEmpty(cells), at, topic[i..])
         == values + Below(cells, at, Hash, []) + Below(cells, at, Plus, topic[i + 1..])
            + Below(cells, at, topic[i], topic[i + 1..])
  {
    var rest := topic[i + 1..];
    assert topic[i..][1..] == rest;
    CollectAt(cells, at, topic[i..]);
    AppendThree(values, Below(cells, at, Hash, []), Below(cells, at, Plus, rest), Below(cells, at, topic[i], rest));
  }

  lemma AppendThree(v: seq<Session>, a: seq<Session>, b: seq<Session>, c: seq<Session>)
    ensures v + (a + b + c) == v + a + b + c
  {
  }

  class PathTree {
    var root: PathNode
    var size: nat
    /** Where the nodes hang, and what each of them holds. */
    ghost var nodes: Places
    ghost var cells: Cells
    ghost var repr: set<PathNode>

    /** The node at p holds what its cell says, and its links lead one level down. */
    ghost predicate Holds(p: Path)
      requires p in nodes && p in cells
      reads this`root, this`nodes, this`cells, this`repr, repr
    {
      && nodes[p] in repr && nodes[p].place == p
      && nodes[p].unmatch == cells[p].list && nodes[p].childs.Keys == cells[p].kids
      && forall l :: l in cells[p].kids ==> p + [l] in nodes && nodes[p].childs[l] == nodes[p + [l]]
    }

    ghost predicate Valid()
      reads this`root, this`nodes, this`cells, this`repr, repr
    {
      && IsTree(cells) && nodes.Keys == cells.Keys && nodes[[]] == root
      && forall p {:trigger Holds(p)} :: p in nodes ==> Holds(p)
    }

    /** The filters with sessions, each with its ordered list. */
    ghost function Registry(): Registry
      reads this`cells
    {
      NonEmpty(cells)
    }

    constructor ()
      ensures Valid() && fresh(repr)
      ensures Registry() == map[] && size == 0
    {
      var r := new PathNode([]);
      root, size := r, 0;
      nodes, cells, repr := map[[] := r], map[[] := Cell({}, [])], {r};
      assert ClientIds([]) == [];
      new;
      assert Hangs(cells, []) && Sound(cells, []);
    }

    /** Hang a new empty node under `node`. */
    method AddChild(node: PathNode, ghost at: Path, key: Level) returns (n: PathNode)
      requires Valid() && at in nodes && nodes[at] == node && key !in node.childs
      modifies this`nodes, this`cells, this`repr, node`childs
      ensures Valid() && fresh(repr - old(repr)) && Registry() == old(Registry())
      ensures at + [key] in nodes && nodes[at + [key]] == n
    {
      ghost var place := at + [key];
      assert Holds(at);
      GrowKeepsTree(cells, at, key);
      GrownRegistry(cells, at, key);
      n := new PathNode(place);
      node.childs := node.childs[key := n];
      nodes, cells, repr := nodes[place := n], Grown(cells, at, key), repr + {n};
      forall p | p in nodes ensures Holds(p) {
        if p in old(nodes) { assert old(Holds(p)); }
      }
    }

    /** The child for a level, hung there first if missing. */
    method Descend(node: PathNode, ghost at: Path, key: Level) returns (n: PathNode)
      requires Valid() && at in nodes && nodes[at] == node
      modifies this`nodes, this`cells, this`repr, node`childs
      ensures Valid() && fresh(repr - old(repr)) && Registry() == old(Registry())
      ensures at + [key] in nodes && nodes[at + [key]] == n
    {
      assert Holds(at);
      if key !in node.childs {
        n := AddChild(node, at, key);
      } else {
        n := node.childs[key];
      }
    }

    /** Replace the session list of one node. */
    method SetUnmatch(n: PathNode, ghost at: Path, list: seq<Session>)
      requires Valid() && at in nodes && nodes[at] == n && SortedSessions(list)
      modifies this`cells, n`unmatch
      ensures Valid() && Registry() == Put(old(Registry()), at, list)
    {
      RelistKeepsTree(cells, at, list);
      RelistedRegistry(cells, at, list);
      assert Holds(at);
      n.unmatch := list;
      cells := Relisted(cells, at, list);
      forall p | p in nodes ensures Holds(p) { assert old(Holds(p)); }
    }

    /** Insert in order at the final node. */
    method EnrollAt(n: PathNode, ghost at: Path, value: Session)
      requires Valid() && at in nodes && nodes[at] == n
      modifies this`cells, n`unmatch
      ensures Valid() && Registry() == Register(old(Registry()), at, value)
    {
      NonEmptyAt(cells, at);
      assert Holds(at) && Sound(cells, at);
      EnrollSorted(n.unmatch, value);
      var list := n.unmatch;
      var found := BinarySearch(ClientIds(list), value.clientId);
      if found.Missing? {
        list := InsertAt(list, found.index, value);
      }
      SetUnmatch(n, at, list);
    }

    /** Take out of the final node's list. */
    method WithdrawAt(n: PathNode, ghost at: Path, value: Session)
      requires Valid() && at in nodes && nodes[at] == n
      modifies this`cells, n`unmatch
      ensures Valid() && Registry() == Unregister(old(Registry()), at, value)
    {
      NonEmptyAt(cells, at);
      assert Holds(at) && Sound(cells, at);
      WithdrawSorted(n.unmatch, value);
      var list := n.unmatch;
      var found := BinarySearch(ClientIds(list), value.clientId);
      if found.At? {
        list := RemoveAt(list, found.index);
      }
      SetUnmatch(n, at, list);
    }

    /** Walk down the filter's levels, hanging missing nodes, to the node of the last level. */
    method Reach(path: Path) returns (n: PathNode)
      requires Valid() && path != []
      modifies this`nodes, this`cells, this`repr, repr
      ensures Valid() && fresh(repr - old(repr)) && Registry() == old(Registry())
      ensures path in nodes && nodes[path] == n && n in repr
    {
      var node, index := root, 0;
      while index < |path|
        invariant 0 <= index <= |path|
        invariant Valid() && Registry() == old(Registry())
        invariant fresh(repr - old(repr))
        invariant path[..index] in nodes && nodes[path[..index]] == node
      {
        assert Holds(path[..index]);
        var n := Descend(node, path[..index], path[index]);
        assert path[..index + 1] == path[..index] + [path[index]];
        node, index := n, index + 1;
      }
      assert path[..index] == path && Holds(path);
      n := node;
    }

    method Insert(path: Path, value: Session) returns (r: Result<(), (Path, Session)>)
      requires Valid()
      modifies this, repr
      ensures Valid() && fresh(repr - old(repr))
      ensures !Wild(path) ==> r == Err((path, value)) && Registry() == old(Registry()) && size == old(size)
      ensures Wild(path) ==>
                r.Ok? && Registry() == Register(old(Registry()), path, value) && size == old(size) + 1
    {
      if !Wild(path) {
        return Err((path, value));
      }
      var n := Reach(path);
      EnrollAt(n, path, value);
      size := size + 1;
      r := Ok(());
    }

    /** The size is not reduced: every path through the code returns before that line. */
    method Remove(path: Path, value: Session) returns (r: Result<(), (Path, Session)>)
      requires Valid()
      modifies this`cells, repr
      ensures Valid()
      ensures !Wild(path) ==> r == Err((path, value)) && Registry() == old(Registry())
      ensures Wild(path) ==> r.Ok? && Registry() == Unregister(old(Registry()), path, value)
    {
      if !Wild(path) {
        return Err((path, value));
      }
      var node, index := root, 0;
      while true
        invariant 0 <= index < |path|
        invariant Valid() && Registry() == old(Registry())
        invariant path[..index] in nodes && nodes[path[..index]] == node
        decreases |path| - index
      {
        var key := path[index];
        assert Holds(path[..index]);
        ChildPlace(cells, path[..index], key);
        assert path[..index + 1] == path[..index] + [key];
        if key !in node.childs {
          NotBelow(cells, path[..index + 1], path);
          return Ok(());
        }
        assert Holds(path[..index + 1]);
        if index == |path| - 1 {
          assert path[..index + 1] == path;
          WithdrawAt(node.childs[key], path, value);
          return Ok(());
        }
        node, index := node.childs[key], index + 1;
      }
    }

    /**
      One round of the loop in `lookup`: what waits below '#' and '+' here, and the
      node of the topic's own level to go on with, if there is one.
     */
    method LookupStep(node: PathNode, ghost at: Path, topic: Path, i: nat, values: seq<Session>)
      returns (out: seq<Session>, next: Option<PathNode>)
      requires Valid() && at in nodes && nodes[at] == node
      requires i < |topic| && !Wild(topic)
      ensures next.None? ==> out == values + Collect(Registry(), at, topic[i..])
      ensures next.Some? ==>
                && i + 1 < |topic|
                && at + [topic[i]] in nodes && nodes[at + [topic[i]]] == next.value
                && out + Collect(Registry(), at + [topic[i]], topic[i + 1..])
                   == values + Collect(Registry(), at, topic[i..])
      decreases |topic| - i, 0
    {
      var key := topic[i];
      ghost var rest := topic[i + 1..];
      StepTotal(cells, at, topic, i, values);
      ghost var h, p, k := Below(cells, at, Hash, []), Below(cells, at, Plus, rest), Below(cells, at, key, rest);
      assert Holds(at);
      out, next := values, None;
      if Hash in node.childs {
        var hash := FinalSessions(node, at, Hash);
        out := out + hash;
      }
      assert out == values + h;
      if Plus in node.childs {
        if i == |topic| - 1 {
          var plus := FinalSessions(node, at, Plus);
          out := out + plus;
        } else {
          out := LookupFrom(node.childs[Plus], at + [Plus], topic, i + 1, out);
        }
      }
      assert out == values + h + p;
      if key in node.childs {
        if i == |topic| - 1 {
          var same := FinalSessions(node, at, key);
          out := out + same;
        } else {
          next := Some(node.childs[key]);
        }
      }
    }

    /** The sessions waiting at a child. */
    method FinalSessions(node: PathNode, ghost at: Path, l: Level) returns (list: seq<Session>)
      requires Valid() && at in nodes && nodes[at] == node && l in node.childs
      ensures list == Below(cells, at, l, [])
    {
      assert Holds(at);
      BelowFinal(cells, at, l);
      assert Holds(at + [l]);
      list := node.childs[l].unmatch;
    }

    /** The recursive `lookup`: walks down the topic's own levels and recurses below every '+'. */
    method LookupFrom(start: PathNode, ghost place: Path, topic: Path, index: nat, values: seq<Session>)
      returns (out: seq<Session>)
      requires Valid() && place in nodes && nodes[place] == start
      requires index < |topic| && !Wild(topic)
      ensures out == values + Collect(Registry(), place, topic[index..])
      decreases |topic| - index, 1
    {
      var node, i := start, index;
      ghost var at := place;
      out := values;
      while true
        invariant index <= i < |topic|
        invariant at in nodes && nodes[at] == node
        invariant out + Collect(Registry(), at, topic[i..]) == values + Collect(Registry(), place, topic[index..])
        decreases |topic| - i
      {
        var next;
        out, next := LookupStep(node, at, topic, i, out);
        if next.None? {
          return;
        }
        at := at + [topic[i]];
        node, i := next.value, i + 1;
      }
    }

    method Find(topic: Path) returns (r: Option<seq<Session>>)
      requires Valid() && topic != []
      ensures r == Lookup(Registry(), topic)
    {
      if Wild(topic) {
        return None;
      }
      var values := LookupFrom(root, [], topic, 0, []);
      assert topic[0..] == topic;
      assert [] + Collect(Registry(), [], topic) == Collect(Registry(), [], topic);
      r := Some(values);
    }
  }
}
