/**
 * The recursive-descent parser that turns the token list of a policy
 * configuration into nested blocks. A block is an ordered dictionary from
 * names to values, plus the standalone items listed in it and, for a block
 * written `name label { ... }`, its label. The dictionary keeps insertion
 * order, which the triaged-filter extraction depends on.
 */
module BlockParser {
  import opened Wrappers

  /** A setting's value: a string, a nested block, or a list built from repeated names. */
  datatype Value = Str(s: string) | Blk(b: Block) | Lst(elems: seq<Value>)

  /**
   * The dictionary of a block as an association list in insertion order; the
   * `_items` list and the `_label` entry are kept in fields of their own.
   */
  datatype Block = Block(entries: seq<(string, Value)>, items: seq<string>, tag: Option<string>)

  const EmptyBlock: Block := Block([], [], None)

  predicate UniqueKeys(entries: seq<(string, Value)>) {
    forall i, j :: 0 <= i < j < |entries| ==> entries[i].0 != entries[j].0
  }

  function KeysOf(entries: seq<(string, Value)>): (r: seq<string>)
    ensures |r| == |entries|
    ensures forall i :: 0 <= i < |entries| ==> r[i] == entries[i].0
  {
    if entries == [] then [] else [entries[0].0] + KeysOf(entries[1..])
  }

  /** Position of key k in the dictionary, if present. */
  function IndexOf(entries: seq<(string, Value)>, k: string): (r: Option<nat>)
    ensures r.Some? ==> r.value < |entries| && entries[r.value].0 == k
    ensures r.Some? ==> forall i :: 0 <= i < r.value ==> entries[i].0 != k
    ensures r.None? ==> forall i :: 0 <= i < |entries| ==> entries[i].0 != k
  {
    if entries == [] then None
    else if entries[0].0 == k then Some(0)
    else match IndexOf(entries[1..], k)
      case None => None
      case Some(n) => Some(n + 1)
  }

  /** `d.get(k)`: the value stored under k. */
  function Lookup(entries: seq<(string, Value)>, k: string): Option<Value> {
    match IndexOf(entries, k)
    case None => None
    case Some(i) => Some(entries[i].1)
  }

  function Get(b: Block, k: string): Option<Value> {
    Lookup(b.entries, k)
  }

  /** `d[k] = v`: an existing key keeps its position, a new key goes last. */
  function Put(entries: seq<(string, Value)>, k: string, v: Value): seq<(string, Value)> {
    match IndexOf(entries, k)
    case Some(i) => entries[i := (k, v)]
    case None => entries + [(k, v)]
  }

  lemma PutGet(entries: seq<(string, Value)>, k: string, v: Value, k2: string)
    requires UniqueKeys(entries)
    ensures Lookup(Put(entries, k, v), k2) == if k2 == k then Some(v) else Lookup(entries, k2)
  {
    var r := Put(entries, k, v);
    match IndexOf(entries, k)
    case Some(i) =>
      if k2 == k {
        assert IndexOf(r, k2) == Some(i) by {
          IndexOfUnique(r, k, i);
        }
      } else {
        match IndexOf(entries, k2)
        case None =>
          IndexOfAbsent(r, k2);
        case Some(j) =>
          IndexOfUnique(r, k2, j);
      }
    case None =>
      if k2 == k {
        IndexOfUnique(r, k, |entries|);
      } else {
        match IndexOf(entries, k2)
        case None =>
          IndexOfAbsent(r, k2);
        case Some(j) =>
          IndexOfUnique(r, k2, j);
      }
  }

  lemma {:induction false} IndexOfUnique(entries: seq<(string, Value)>, k: string, i: nat)
    requires i < |entries| && entries[i].0 == k
    requires forall j :: 0 <= j < i ==> entries[j].0 != k
    ensures IndexOf(entries, k) == Some(i)
  {
    if i > 0 {
      IndexOfUnique(entries[1..], k, i - 1);
    }
  }

  lemma IndexOfAbsent(entries: seq<(string, Value)>, k: string)
    requires forall j :: 0 <= j < |entries| ==> entries[j].0 != k
    ensures IndexOf(entries, k) == None
  {
  }

  /** Assignment keeps the dictionary's keys in insertion order, a new key last. */
  lemma PutKeys(entries: seq<(string, Value)>, k: string, v: Value)
    requires UniqueKeys(entries)
    ensures (k in KeysOf(entries)) ==> KeysOf(Put(entries, k, v)) == KeysOf(entries)
    ensures (k !in KeysOf(entries)) ==> KeysOf(Put(entries, k, v)) == KeysOf(entries) + [k]
    ensures UniqueKeys(Put(entries, k, v))
  {
    var ks := KeysOf(entries);
    var r := Put(entries, k, v);
    if k in ks {
      var i :| 0 <= i < |ks| && ks[i] == k;
      assert IndexOf(entries, k).Some?;
      assert KeysOf(r) == ks;
    } else {
      assert forall i :: 0 <= i < |entries| ==> entries[i].0 != k by {
        forall i | 0 <= i < |entries|
          ensures entries[i].0 != k
        {
          assert ks[i] == entries[i].0;
        }
      }
      IndexOfAbsent(entries, k);
      assert KeysOf(r) == ks + [k];
    }
  }

  /**
   * A repeated `name { ... }`: the first occurrence stores the block, the
   * second turns the entry into a list of both, later ones append to it.
   */
  function AddNamed(entries: seq<(string, Value)>, name: string, nested: Block): seq<(string, Value)> {
    match Lookup(entries, name)
    case None => Put(entries, name, Blk(nested))
    case Some(Lst(es)) => Put(entries, name, Lst(es + [Blk(nested)]))
    case Some(prev) => Put(entries, name, Lst([prev, Blk(nested)]))
  }

  /** `name label { ... }`: the entry is always a list, created empty when missing. */
  function AddLabeled(entries: seq<(string, Value)>, name: string, nested: Block): seq<(string, Value)> {
    match Lookup(entries, name)
    case None => Put(entries, name, Lst([Blk(nested)]))
    case Some(Lst(es)) => Put(entries, name, Lst(es + [Blk(nested)]))
    case Some(prev) => Put(entries, name, Lst([prev, Blk(nested)]))
  }

  /** The blocks xs as list elements, in order. */
  function Blks(xs: seq<Block>): (r: seq<Value>)
    ensures |r| == |xs|
    ensures forall i :: 0 <= i < |xs| ==> r[i] == Blk(xs[i])
  {
    seq(|xs|, i requires 0 <= i < |xs| => Blk(xs[i]))
  }

  /** The blocks xs added under name one after another, as repeated `name { ... }` do. */
  function AddNamedAll(entries: seq<(string, Value)>, name: string, xs: seq<Block>): seq<(string, Value)>
    decreases |xs|
  {
    if xs == [] then entries
    else AddNamed(AddNamedAll(entries, name, xs[..|xs| - 1]), name, xs[|xs| - 1])
  }

  /** The value stored under name after one more `name { ... }`. */
  lemma AddNamedLookup(entries: seq<(string, Value)>, name: string, nested: Block)
    requires UniqueKeys(entries)
    ensures Lookup(AddNamed(entries, name, nested), name) ==
      match Lookup(entries, name)
      case None => Some(Blk(nested))
      case Some(Lst(es)) => Some(Lst(es + [Blk(nested)]))
      case Some(prev) => Some(Lst([prev, Blk(nested)]))
  {
    match Lookup(entries, name)
    case None => PutGet(entries, name, Blk(nested), name);
    case Some(Lst(es)) => PutGet(entries, name, Lst(es + [Blk(nested)]), name);
    case Some(prev) => PutGet(entries, name, Lst([prev, Blk(nested)]), name);
  }

  /** The value one more `name { ... }` leaves under name, given the value before. */
  function AddedValue(prev: Option<Value>, nested: Block): Option<Value> {
    match prev
    case None => Some(Blk(nested))
    case Some(Lst(es)) => Some(Lst(es + [Blk(nested)]))
    case Some(v) => Some(Lst([v, Blk(nested)]))
  }

  /** The value stored under a name after the blocks xs, given the value before. */
  function Collected(prev: Option<Value>, xs: seq<Block>): Option<Value>
    decreases |xs|
  {
    if xs == [] then prev else AddedValue(Collected(prev, xs[..|xs| - 1]), xs[|xs| - 1])
  }

  lemma {:induction false} AddNamedAllCollects(entries: seq<(string, Value)>, name: string, xs: seq<Block>)
    requires UniqueKeys(entries)
    ensures UniqueKeys(AddNamedAll(entries, name, xs))
    ensures Lookup(AddNamedAll(entries, name, xs), name) == Collected(Lookup(entries, name), xs)
    decreases |xs|
  {
    if xs != [] {
      var ys := xs[..|xs| - 1];
      AddNamedAllCollects(entries, name, ys);
      AddNamedKeepsUnique(AddNamedAll(entries, name, ys), name, xs[|xs| - 1]);
      AddNamedLookup(AddNamedAll(entries, name, ys), name, xs[|xs| - 1]);
    }
  }

  /** From a missing name, two or more blocks are a list of all of them. */
  lemma {:induction false} CollectedFromNone(xs: seq<Block>)
    requires |xs| >= 2
    ensures Collected(None, xs) == Some(Lst(Blks(xs)))
    decreases |xs|
  {
    var ys := xs[..|xs| - 1];
    if |xs| == 2 {
      assert Collected(None, ys) == Some(Blk(xs[0])) by {
        assert ys[..0] == [];
      }
      assert Blks(xs) == [Blk(xs[0]), Blk(xs[1])];
    } else {
      CollectedFromNone(ys);
      assert Blks(xs) == Blks(ys) + [Blk(xs[|xs| - 1])];
    }
  }

  /** An earlier list under the name is extended by every block. */
  lemma {:induction false} CollectedFromList(es: seq<Value>, xs: seq<Block>)
    ensures Collected(Some(Lst(es)), xs) == Some(Lst(es + Blks(xs)))
    decreases |xs|
  {
    if xs == [] {
      assert es + Blks(xs) == es;
    } else {
      var ys := xs[..|xs| - 1];
      CollectedFromList(es, ys);
      assert es + Blks(xs) == es + Blks(ys) + [Blk(xs[|xs| - 1])];
    }
  }

  /** An earlier string or block under the name becomes the first list element. */
  lemma {:induction false} CollectedFromScalar(v: Value, xs: seq<Block>)
    requires !v.Lst? && |xs| >= 1
    ensures Collected(Some(v), xs) == Some(Lst([v] + Blks(xs)))
  {
    var ys := xs[..|xs| - 1];
    if ys == [] {
      assert [v] + Blks(xs) == [v, Blk(xs[0])];
    } else {
      CollectedFromScalar(v, ys);
      CollectedFromList([v] + Blks(ys), [xs[|xs| - 1]]);
      assert Collected(Some(v), xs) == AddedValue(Collected(Some(v), ys), xs[|xs| - 1]);
      assert [v] + Blks(xs) == [v] + Blks(ys) + [Blk(xs[|xs| - 1])];
    }
  }

  /**
   * Any number of repeated named blocks collect into a list in source order:
   * a lone block is stored as it is, two or more from a missing name form a
   * list of all of them, an earlier list is extended, and an earlier string
   * or block under the name becomes the first list element.
   */
  lemma RepeatedNamedBlocks(entries: seq<(string, Value)>, name: string, xs: seq<Block>)
    requires UniqueKeys(entries)
    ensures UniqueKeys(AddNamedAll(entries, name, xs))
    ensures Lookup(entries, name) == None && |xs| == 1 ==>
      Lookup(AddNamedAll(entries, name, xs), name) == Some(Blk(xs[0]))
    ensures Lookup(entries, name) == None && |xs| >= 2 ==>
      Lookup(AddNamedAll(entries, name, xs), name) == Some(Lst(Blks(xs)))
    ensures Lookup(entries, name).Some? && Lookup(entries, name).value.Lst? ==>
      Lookup(AddNamedAll(entries, name, xs), name) == Some(Lst(Lookup(entries, name).value.elems + Blks(xs)))
    ensures Lookup(entries, name).Some? && !Lookup(entries, name).value.Lst? && |xs| >= 1 ==>
      Lookup(AddNamedAll(entries, name, xs), name) == Some(Lst([Lookup(entries, name).value] + Blks(xs)))
  {
    AddNamedAllCollects(entries, name, xs);
    match Lookup(entries, name)
    case None =>
      if |xs| == 1 {
        assert xs[..0] == [];
      } else if |xs| >= 2 {
        CollectedFromNone(xs);
      }
    case Some(Lst(es)) =>
      CollectedFromList(es, xs);
    case Some(v) =>
      if |xs| >= 1 {
        CollectedFromScalar(v, xs);
      }
  }

  /** v is a list whose last element is the block b. */
  predicate EndsWithBlock(v: Option<Value>, b: Block) {
    v.Some? && v.value.Lst? && |v.value.elems| > 0 && v.value.elems[|v.value.elems| - 1] == Blk(b)
  }

  /** A labelled block always ends up as the last element of a list. */
  lemma LabeledIsLastOfList(entries: seq<(string, Value)>, name: string, nested: Block)
    requires UniqueKeys(entries)
    ensures UniqueKeys(AddLabeled(entries, name, nested))
    ensures EndsWithBlock(Lookup(AddLabeled(entries, name, nested), name), nested)
  {
    var es: seq<Value>;
    match Lookup(entries, name) {
      case None =>
        es := [];
        assert es + [Blk(nested)] == [Blk(nested)];
      case Some(Lst(es0)) =>
        es := es0;
      case Some(prev) =>
        es := [prev];
        assert es + [Blk(nested)] == [prev, Blk(nested)];
    }
    assert AddLabeled(entries, name, nested) == Put(entries, name, Lst(es + [Blk(nested)]));
    PutGet(entries, name, Lst(es + [Blk(nested)]), name);
    PutKeys(entries, name, Lst(es + [Blk(nested)]));
    assert (es + [Blk(nested)])[|es|] == Blk(nested);
  }

  lemma AddNamedKeepsUnique(entries: seq<(string, Value)>, name: string, nested: Block)
    requires UniqueKeys(entries)
    ensures UniqueKeys(AddNamed(entries, name, nested))
  {
    match Lookup(entries, name)
    case None => PutKeys(entries, name, Blk(nested));
    case Some(Lst(es)) => PutKeys(entries, name, Lst(es + [Blk(nested)]));
    case Some(prev) => PutKeys(entries, name, Lst([prev, Blk(nested)]));
  }

  /** Python's `w in s` on strings: w occurs in s as a contiguous substring. */
  predicate IsInfix(w: string, s: string)
    decreases |s|
  {
    w <= s || (s != [] && IsInfix(w, s[1..]))
  }

  /**
   * The token after a name is taken as its value unless it occurs inside the
   * string "{=}": the empty token, `{`, `=`, `}`, `{=`, `=}` and `{=}` do not count.
   */
  predicate IsValueToken(w: string) {
    !IsInfix(w, "{=}")
  }

  lemma ValueTokenCases(w: string)
    ensures !IsValueToken(w) <==>
      (w == "" || w == "{" || w == "=" || w == "}" || w == "{=" || w == "=}" || w == "{=}")
  {
    var s := "{=}";
    assert s[1..] == "=}" && s[1..][1..] == "}" && s[1..][1..][1..] == [];
    if |w| > 3 {
      assert !IsInfix(w, s);
    }
  }

  /** One pass of the parser loop at a position that is neither the end nor `}`. */
  function Step(t: seq<string>, pos: nat, acc: Block): (r: (Block, nat))
    requires pos < |t|
    decreases |t| - pos, 1
    ensures r.1 > pos
    ensures r.0.tag == acc.tag
    ensures acc.items <= r.0.items
    ensures UniqueKeys(acc.entries) ==> UniqueKeys(r.0.entries)
  {
    var tok := t[pos];
    if tok == "{" then
      var (_, next) := ParseBlockSpec(t, pos);
      (acc, next)
    else if pos + 1 < |t| && t[pos + 1] == "{" then
      var (nested, next) := ParseBlockSpec(t, pos + 1);
      AddNamedKeepsUniqueIf(acc.entries, tok, nested);
      (acc.(entries := AddNamed(acc.entries, tok, nested)), next)
    else if pos + 2 < |t| && t[pos + 2] == "{" then
      var (nested, next) := ParseBlockSpec(t, pos + 2);
      var stamped := nested.(tag := Some(t[pos + 1]));
      AddLabeledKeepsUniqueIf(acc.entries, tok, stamped);
      (acc.(entries := AddLabeled(acc.entries, tok, stamped)), next)
    else if pos + 1 < |t| && t[pos + 1] == "=" then
      var v := Str(if pos + 2 < |t| then t[pos + 2] else "");
      PutKeepsUniqueIf(acc.entries, tok, v);
      (acc.(entries := Put(acc.entries, tok, v)), pos + 3)
    else if pos + 1 < |t| && IsValueToken(t[pos + 1]) then
      PutKeepsUniqueIf(acc.entries, tok, Str(t[pos + 1]));
      (acc.(entries := Put(acc.entries, tok, Str(t[pos + 1]))), pos + 2)
    else
      (acc.(items := acc.items + [tok]), pos + 1)
  }

  lemma PutKeepsUniqueIf(entries: seq<(string, Value)>, k: string, v: Value)
    ensures UniqueKeys(entries) ==> UniqueKeys(Put(entries, k, v))
  {
    if UniqueKeys(entries) {
      PutKeys(entries, k, v);
    }
  }

  lemma AddNamedKeepsUniqueIf(entries: seq<(string, Value)>, name: string, nested: Block)
    ensures UniqueKeys(entries) ==> UniqueKeys(AddNamed(entries, name, nested))
  {
    if UniqueKeys(entries) {
      AddNamedKeepsUnique(entries, name, nested);
    }
  }

  lemma AddLabeledKeepsUniqueIf(entries: seq<(string, Value)>, name: string, nested: Block)
    ensures UniqueKeys(entries) ==> UniqueKeys(AddLabeled(entries, name, nested))
  {
    if UniqueKeys(entries) {
      LabeledIsLastOfList(entries, name, nested);
    }
  }

  /** The parser loop from pos: runs until `}` or the end and returns the position after it. */
  function Loop(t: seq<string>, pos: nat, acc: Block): (r: (Block, nat))
    decreases (if pos <= |t| then |t| - pos else 0), 2
    ensures r.1 > pos
    ensures r.0.tag == acc.tag
    ensures acc.items <= r.0.items
    ensures UniqueKeys(acc.entries) ==> UniqueKeys(r.0.entries)
  {
    if pos >= |t| || t[pos] == "}" then (acc, pos + 1)
    else
      var (acc2, next) := Step(t, pos, acc);
      Loop(t, next, acc2)
  }

  /**
   * `_parse_block(tokens, s)`: the block whose opening brace is at s, and the
   * position after its closing brace. The result has no label (a caller adds
   * one) and no key twice.
   */
  function ParseBlockSpec(t: seq<string>, s: nat): (r: (Block, nat))
    requires s < |t|
    decreases |t| - s, 0
    ensures r.1 > s
    ensures r.0.tag == None
    ensures UniqueKeys(r.0.entries)
  {
    Loop(t, s + 1, EmptyBlock)
  }

  /** An anonymous nested block leaves the enclosing block as it was. */
  lemma {:induction false} AnonymousBlockIgnored(t: seq<string>, pos: nat, acc: Block)
    requires pos < |t| && t[pos] == "{"
    ensures Loop(t, pos, acc) == Loop(t, ParseBlockSpec(t, pos).1, acc)
  {
  }

  /** A labelled block is stored as the last list element, stamped with its label. */
  lemma LabeledBlockStep(t: seq<string>, pos: nat, acc: Block)
    requires pos + 2 < |t| && t[pos] != "{" && t[pos + 1] != "{" && t[pos + 2] == "{"
    requires UniqueKeys(acc.entries)
    ensures EndsWithBlock(Get(Step(t, pos, acc).0, t[pos]), ParseBlockSpec(t, pos + 2).0.(tag := Some(t[pos + 1])))
  {
    var nested := ParseBlockSpec(t, pos + 2).0.(tag := Some(t[pos + 1]));
    LabeledIsLastOfList(acc.entries, t[pos], nested);
  }

  /** A standalone token before `}` is an item: `{ a }` lists a. */
  lemma ItemExample()
    ensures ParseBlockSpec(["{", "a", "}"], 0) == (Block([], ["a"], None), 3)
  {
    var t := ["{", "a", "}"];
    ValueTokenCases("}");
    assert EmptyBlock.items + ["a"] == ["a"];
    assert Step(t, 1, EmptyBlock) == (Block([], ["a"], None), 2);
    assert Loop(t, 1, EmptyBlock) == Loop(t, 2, Block([], ["a"], None));
  }

  /**
   * Two adjacent standalone tokens pair up as a setting: `{ a b }` stores
   * a = "b" and lists no item.
   */
  lemma AdjacentItemsPairUp()
    ensures ParseBlockSpec(["{", "a", "b", "}"], 0) == (Block([("a", Str("b"))], [], None), 4)
  {
    var t := ["{", "a", "b", "}"];
    assert IsValueToken("b") by {
      ValueTokenCases("b");
    }
    assert Put([], "a", Str("b")) == [("a", Str("b"))];
    assert Loop(t, 1, EmptyBlock) == Loop(t, 3, Block([("a", Str("b"))], [], None));
  }

  /**
   * `_parse_block`: the source's loop, with the block dictionary and the item
   * list held in local variables and extended in place.
   */
  method ParseBlock(t: seq<string>, s: nat) returns (block: Block, next: nat)
    requires s < |t|
    decreases |t| - s
    ensures (block, next) == ParseBlockSpec(t, s)
  {
    var entries: seq<(string, Value)> := [];
    var items: seq<string> := [];
    var pos := s + 1;
    while pos < |t| && t[pos] != "}"
      invariant s < pos
      invariant Loop(t, pos, Block(entries, items, None)) == ParseBlockSpec(t, s)
      decreases |t| - pos
    {
      var tok := t[pos];
      ghost var acc := Block(entries, items, None);
      ghost var step := Step(t, pos, acc);
      if tok == "{" {
        var _, p := ParseBlock(t, pos);
        pos := p;
      } else if pos + 1 < |t| && t[pos + 1] == "{" {
        var nested, p := ParseBlock(t, pos + 1);
        match Lookup(entries, tok) {
          case Some(Lst(es)) =>
            entries := Put(entries, tok, Lst(es + [Blk(nested)]));
          case Some(prev) =>
            entries := Put(entries, tok, Lst([prev, Blk(nested)]));
          case None =>
            entries := Put(entries, tok, Blk(nested));
        }
        pos := p;
      } else if pos + 2 < |t| && t[pos + 2] == "{" {
        var labelText := t[pos + 1];
        var nested, p := ParseBlock(t, pos + 2);
        nested := nested.(tag := Some(labelText));
        var cur := Lookup(entries, tok).GetOr(Lst([]));
        match cur {
          case Lst(es) =>
            assert [] + [Blk(nested)] == [Blk(nested)];
            entries := Put(entries, tok, Lst(es + [Blk(nested)]));
          case _ =>
            entries := Put(entries, tok, Lst([cur, Blk(nested)]));
        }
        pos := p;
      } else if pos + 1 < |t| && t[pos + 1] == "=" {
        var v := if pos + 2 < |t| then t[pos + 2] else "";
        entries := Put(entries, tok, Str(v));
        pos := pos + 3;
      } else if pos + 1 < |t| && !IsInfix(t[pos + 1], "{=}") {
        entries := Put(entries, tok, Str(t[pos + 1]));
        pos := pos + 2;
      } else {
        items := items + [tok];
        pos := pos + 1;
      }
      assert (Block(entries, items, None), pos) == step;
    }
    block := Block(entries, items, None);
    next := pos + 1;
  }
}
