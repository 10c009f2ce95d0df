/** What the descriptor parser accepts, and what its result means.

    The reference is a tree of items: a Push, the items it encloses and the
    matching Pop form one scope.  Its meaning needs no stack. */
module HidLaws {
  import opened Common
  import opened HidDescriptor

  // ---------------------------------------------------------------- bytes and items

  lemma ReadEncoded(x: Item, rest: seq<u8>)
    requires IsItem(x)
    ensures ReadItem(EncodeItem(x) + rest) == Ok((x, |EncodeItem(x)|))
  {
    var b := EncodeItem(x) + rest;
    match x
    case Short(kind, tag, data) =>
      PrefixSplits(kind, tag, SizeCode(|data|));
      assert b[1..1 + |data|] == data;
    case Long(tag, data) =>
      assert b[3..3 + |data|] == data;
  }

  lemma PrefixSplits(kind: nat, tag: nat, code: nat)
    requires kind < 4 && code < 4
    ensures var p := 16 * tag + 4 * kind + code; p % 4 == code && p / 4 % 4 == kind && p / 16 == tag
  {
    var p := 16 * tag + 4 * kind + code;
    assert p / 4 == 4 * tag + kind;
  }

  lemma EncodedRead(b: seq<u8>)
    requires b != [] && ReadItem(b).Ok?
    ensures var (x, n) := ReadItem(b).value; EncodeItem(x) == b[..n]
  {
    var (x, n) := ReadItem(b).value;
    var p := b[0];
    if p == LONG_PREFIX {
      assert EncodeItem(x) == b[..n];
    } else {
      assert p == 16 * (p / 16) + 4 * (p / 4 % 4) + p % 4;
      assert EncodeItem(x)[0] == p;
      assert EncodeItem(x) == b[..n];
    }
  }

  /** Scanning encoded items is running the items. */
  lemma {:induction false} ScanRuns(items: seq<Item>, s: State)
    requires AreItems(items)
    ensures Scan(Encode(items), s) == Run(items, s)
  {
    if items != [] {
      var x, rest := items[0], Encode(items[1..]);
      var b := EncodeItem(x) + rest;
      ReadEncoded(x, rest);
      assert b[|EncodeItem(x)|..] == rest;
      if Apply(s, x).Ok? {
        ScanRuns(items[1..], Apply(s, x).value);
      }
    }
  }

  /** Bytes that scan without error are encoded items. */
  lemma {:induction false} ScannedItems(b: seq<u8>, s: State) returns (items: seq<Item>)
    requires Scan(b, s).Ok?
    ensures AreItems(items) && Encode(items) == b
    decreases |b|
  {
    hide ReadItem, Apply, EncodeItem, IsItem;
    if b == [] {
      items := [];
    } else {
      var (x, n) := ReadItem(b).value;
      var more := ScannedItems(b[n..], Apply(s, x).value);
      EncodedRead(b);
      items := [x] + more;
      assert items[1..] == more;
      assert b == b[..n] + b[n..];
    }
  }

  // ---------------------------------------------------------------- scopes

  datatype Tree =
    | Done
    | Leaf(item: Item, rest: Tree)
    | Scope(push: Item, body: Tree, pop: Item, rest: Tree)

  predicate IsTree(t: Tree) {
    match t
    case Done => true
    case Leaf(x, rest) => IsItem(x) && !IsPush(x) && !IsPop(x) && IsTree(rest)
    case Scope(push, body, pop, rest) =>
      IsItem(push) && IsPush(push) && IsTree(body) && IsItem(pop) && IsPop(pop) && IsTree(rest)
  }

  function Flatten(t: Tree): (items: seq<Item>)
    requires IsTree(t)
    ensures AreItems(items)
  {
    match t
    case Done => []
    case Leaf(x, rest) => [x] + Flatten(rest)
    case Scope(push, body, pop, rest) => [push] + Flatten(body) + [pop] + Flatten(rest)
  }

  /** The global items in force after one item. */
  function Update(g: Globals, x: Item): Globals
    requires IsItem(x)
  {
    if IsSize(x) then g.(size := UnsignedLE(x.data))
    else if IsCount(x) then g.(count := UnsignedLE(x.data))
    else if IsId(x) then g.(id := Min(UnsignedLE(x.data), 0xFF))
    else g
  }

  /** Every Report ID item names an ID from 1 to 255. */
  predicate GoodIds(t: Tree)
    requires IsTree(t)
  {
    match t
    case Done => true
    case Leaf(x, rest) => (IsId(x) ==> 1 <= UnsignedLE(x.data) <= 0xFF) && GoodIds(rest)
    case Scope(_, body, _, rest) => GoodIds(body) && GoodIds(rest)
  }

  /** The sum of size times count over the Output items of report `id`; a scope
      does not change the globals that follow it. */
  function OutputBits(t: Tree, g: Globals, id: u8): nat
    requires IsTree(t)
  {
    match t
    case Done => 0
    case Leaf(x, rest) =>
      (if IsOutput(x) && g.id == id then g.size * g.count else 0) + OutputBits(rest, Update(g, x), id)
    case Scope(_, body, _, rest) => OutputBits(body, g, id) + OutputBits(rest, g, id)
  }

  /** Report `id` has an Output item. */
  predicate HasOutput(t: Tree, g: Globals, id: u8)
    requires IsTree(t)
  {
    match t
    case Done => false
    case Leaf(x, rest) => (IsOutput(x) && g.id == id) || HasOutput(rest, Update(g, x), id)
    case Scope(_, body, _, rest) => HasOutput(body, g, id) || HasOutput(rest, g, id)
  }

  /** The globals in force at the end. */
  function GlobalsAfter(t: Tree, g: Globals): Globals
    requires IsTree(t)
  {
    match t
    case Done => g
    case Leaf(x, rest) => GlobalsAfter(rest, Update(g, x))
    case Scope(_, _, _, rest) => GlobalsAfter(rest, g)
  }

  /** No report grows beyond 64 bits on top of what was counted before. */
  ghost predicate Fits(t: Tree, g: Globals, bits: map<u8, u64>)
    requires IsTree(t)
  {
    forall id: u8 :: BitsOf(bits, id) + OutputBits(t, g, id) <= U64_MAX
  }

  /** The product of two 32-bit numbers always fits 64 bits. */
  lemma ProductFits(g: Globals)
    ensures g.size * g.count <= U64_MAX
  {
    assert g.size * g.count <= U32_MAX * g.count <= U32_MAX * U32_MAX;
  }

  /** So the check on the product itself never fires. */
  lemma ProductCheckNeverFires(bits: map<u8, u64>, g: Globals)
    ensures AddOutput(bits, g).Err? <==> BitsOf(bits, g.id) + g.size * g.count > U64_MAX
  {
    ProductFits(g);
  }

  lemma {:induction false} RunAppends(a: seq<Item>, b: seq<Item>, s: State)
    requires AreItems(a) && AreItems(b)
    ensures AreItems(a + b)
    ensures Run(a + b, s) == match Run(a, s) case Err(e) => Err(e) case Ok(t) => Run(b, t)
  {
    if a == [] {
      assert a + b == b;
    } else {
      assert (a + b)[1..] == a[1..] + b;
      if Apply(s, a[0]).Ok? {
        RunAppends(a[1..], b, Apply(s, a[0]).value);
      } else {
        RunAppends(a[1..], b, s);
      }
    }
  }

  /** State `end` is where a tree leads from state `s`. */
  ghost predicate Leads(t: Tree, s: State, end: State)
    requires IsTree(t)
  {
    && end.globals == GlobalsAfter(t, s.globals)
    && end.stack == s.stack
    && (forall id: u8 :: BitsOf(end.bits, id) == BitsOf(s.bits, id) + OutputBits(t, s.globals, id))
    && (forall id: u8 :: id in end.bits <==> id in s.bits || HasOutput(t, s.globals, id))
  }

  lemma LeafStep(x: Item, rest: Tree, s: State)
    requires IsTree(Leaf(x, rest))
    ensures Apply(s, x).Ok? <==>
      (IsId(x) ==> 1 <= UnsignedLE(x.data) <= 0xFF)
      && (IsOutput(x) ==> BitsOf(s.bits, s.globals.id) + s.globals.size * s.globals.count <= U64_MAX)
    ensures Apply(s, x).Ok? ==>
      var t, g := Apply(s, x).value, s.globals;
      && t.globals == Update(g, x) && t.stack == s.stack
      && t.bits == if IsOutput(x) then s.bits[g.id := BitsOf(s.bits, g.id) + g.size * g.count] else s.bits
  {
    ProductFits(s.globals);
  }

  /** Running the flattened tree succeeds exactly when its IDs are good and its sums
      fit, and then leads where the tree leads. */
  lemma {:induction false} RunTree(t: Tree, s: State)
    requires IsTree(t)
    ensures Run(Flatten(t), s).Ok? <==> GoodIds(t) && Fits(t, s.globals, s.bits)
    ensures Run(Flatten(t), s).Ok? ==> Leads(t, s, Run(Flatten(t), s).value)
    decreases t, 1
  {
    match t
    case Done =>
    case Leaf(x, rest) => RunLeaf(x, rest, s);
    case Scope(push, body, pop, rest) => RunScope(push, body, pop, rest, s);
  }

  lemma {:induction false} RunLeaf(x: Item, rest: Tree, s: State)
    requires IsTree(Leaf(x, rest))
    ensures var t := Leaf(x, rest);
      && (Run(Flatten(t), s).Ok? <==> GoodIds(t) && Fits(t, s.globals, s.bits))
      && (Run(Flatten(t), s).Ok? ==> Leads(t, s, Run(Flatten(t), s).value))
    decreases Leaf(x, rest), 0
  {
    var t, g := Leaf(x, rest), s.globals;
    LeafStep(x, rest, s);
    assert Flatten(t)[1..] == Flatten(rest);
    assert OutputBits(t, g, g.id) ==
      (if IsOutput(x) then g.size * g.count else 0) + OutputBits(rest, Update(g, x), g.id);
    if Apply(s, x).Ok? {
      var next := Apply(s, x).value;
      RunTree(rest, next);
      assert forall id: u8 :: BitsOf(next.bits, id) + OutputBits(rest, next.globals, id)
                           == BitsOf(s.bits, id) + OutputBits(t, g, id);
    }
  }

  /** The state inside a scope, and the state after leaving it again. */
  function Entered(s: State): State { s.(stack := s.stack + [s.globals]) }
  function Back(s: State, left: State): State { left.(globals := s.globals, stack := s.stack) }

  lemma RunThroughScope(push: Item, body: Tree, pop: Item, rest: Tree, s: State)
    requires IsTree(Scope(push, body, pop, rest))
    ensures Run(Flatten(Scope(push, body, pop, rest)), s) ==
      match Run(Flatten(body), Entered(s)) case Err(e) => Err(e) case Ok(left) => Run([pop] + Flatten(rest), left)
  {
    hide Apply;
    var inner, tail := Flatten(body), [pop] + Flatten(rest);
    Grouped([push], inner, [pop], Flatten(rest));
    assert ([push] + (inner + tail))[1..] == inner + tail;
    ApplyPush(s, push);
    RunAppends(inner, tail, Entered(s));
  }

  lemma ApplyPush(s: State, push: Item)
    requires IsItem(push) && IsPush(push)
    ensures Apply(s, push) == Ok(Entered(s))
  {
  }

  lemma Grouped<T>(a: seq<T>, b: seq<T>, c: seq<T>, d: seq<T>)
    ensures a + b + c + d == a + (b + (c + d))
  {
  }

  lemma RunLeavesScope(pop: Item, rest: Tree, s: State, left: State)
    requires IsItem(pop) && IsPop(pop) && IsTree(rest) && left.stack == Entered(s).stack
    ensures Run([pop] + Flatten(rest), left) == Run(Flatten(rest), Back(s, left))
  {
    assert left.stack[..|left.stack| - 1] == s.stack;
    assert Apply(left, pop) == Ok(Back(s, left));
    assert ([pop] + Flatten(rest))[1..] == Flatten(rest);
  }

  lemma ScopeFits(push: Item, body: Tree, pop: Item, rest: Tree, s: State)
    requires IsTree(Scope(push, body, pop, rest))
    ensures var t, g := Scope(push, body, pop, rest), s.globals;
      && (Fits(t, g, s.bits) ==> Fits(body, g, s.bits))
      && (forall left: State :: Leads(body, Entered(s), left) ==>
            (Fits(t, g, s.bits) <==> Fits(rest, g, left.bits)))
  {
    hide BitsOf;
    var t, g := Scope(push, body, pop, rest), s.globals;
    assert forall id: u8 :: OutputBits(t, g, id) == OutputBits(body, g, id) + OutputBits(rest, g, id);
  }

  lemma ScopeLeads(push: Item, body: Tree, pop: Item, rest: Tree, s: State, left: State, end: State)
    requires IsTree(Scope(push, body, pop, rest))
    requires Leads(body, Entered(s), left) && Leads(rest, Back(s, left), end)
    ensures Leads(Scope(push, body, pop, rest), s, end)
  {
    hide BitsOf;
  }

  lemma {:induction false} RunScope(push: Item, body: Tree, pop: Item, rest: Tree, s: State)
    requires IsTree(Scope(push, body, pop, rest))
    ensures var t := Scope(push, body, pop, rest);
      && (Run(Flatten(t), s).Ok? <==> GoodIds(t) && Fits(t, s.globals, s.bits))
      && (Run(Flatten(t), s).Ok? ==> Leads(t, s, Run(Flatten(t), s).value))
    decreases Scope(push, body, pop, rest), 0
  {
    hide Fits;
    RunThroughScope(push, body, pop, rest, s);
    RunTree(body, Entered(s));
    ScopeFits(push, body, pop, rest, s);
    var inner := Run(Flatten(body), Entered(s));
    if inner.Ok? {
      var back := Back(s, inner.value);
      RunLeavesScope(pop, rest, s, inner.value);
      RunTree(rest, back);
      if Run(Flatten(rest), back).Ok? {
        ScopeLeads(push, body, pop, rest, s, inner.value, Run(Flatten(rest), back).value);
      }
    }
  }

  // ---------------------------------------------------------------- every accepted list is a tree

  /** Only Push and Pop move the stack. */
  lemma ApplyStack(s: State, x: Item)
    requires IsItem(x) && Apply(s, x).Ok?
    ensures var next := Apply(s, x).value;
      if IsPush(x) then next.stack == s.stack + [s.globals]
      else if IsPop(x) then s.stack != [] && next.stack == s.stack[..|s.stack| - 1]
      else next.stack == s.stack
  {
  }

  /** Reads off a tree up to the first Pop or Push that has no partner; behind a
      Push without partner the stack stays higher. */
  lemma {:induction false} SplitScopes(items: seq<Item>, s: State) returns (t: Tree, left: seq<Item>)
    requires AreItems(items) && Run(items, s).Ok?
    ensures IsTree(t) && AreItems(left) && items == Flatten(t) + left
    ensures left == [] || IsPop(left[0]) || |Run(items, s).value.stack| > |s.stack|
    decreases |items|
  {
    hide Interpret;
    if items == [] || IsPop(items[0]) {
      return Done, items;
    }
    var x, next := items[0], Apply(s, items[0]).value;
    ApplyStack(s, x);
    var body, after := SplitScopes(items[1..], next);
    if !IsPush(x) {
      return Leaf(x, body), after;
    }
    RunAppends(Flatten(body), after, next);
    RunTree(body, next);
    if after == [] || !IsPop(after[0]) {
      return Done, items;
    }
    ApplyStack(Run(Flatten(body), next).value, after[0]);
    var back := Apply(Run(Flatten(body), next).value, after[0]).value;
    assert Run(items, s) == Run(after[1..], back) && back.stack == s.stack;
    var rest;
    rest, left := SplitScopes(after[1..], back);
    t := Scope(x, body, after[0], rest);
    ScopeSplits(items, x, body, after, rest, left);
  }

  lemma Regrouped<T>(a: seq<T>, b: seq<T>, c: seq<T>, d: seq<T>, e: seq<T>)
    ensures a + (b + (c + (d + e))) == (a + b + c + d) + e
  {
  }

  lemma ScopeSplits(items: seq<Item>, x: Item, body: Tree, after: seq<Item>, rest: Tree, left: seq<Item>)
    requires IsItem(x) && IsPush(x) && IsTree(body) && IsTree(rest)
    requires items != [] && items[0] == x && items[1..] == Flatten(body) + after
    requires after != [] && IsItem(after[0]) && IsPop(after[0]) && after[1..] == Flatten(rest) + left
    ensures items == Flatten(Scope(x, body, after[0], rest)) + left
  {
    Regrouped([x], Flatten(body), [after[0]], Flatten(rest), left);
    assert items == [x] + items[1..] && after == [after[0]] + after[1..];
  }

  // ---------------------------------------------------------------- the result

  /** The tree is accepted and `m` is its result: bits rounded up to bytes for
      every report with an Output item. */
  ghost predicate Means(t: Tree, m: map<u8, nat>)
    requires IsTree(t)
  {
    && GoodIds(t)
    && (forall id: u8 :: OutputBits(t, NO_GLOBALS, id) + 7 <= U64_MAX)
    && (forall id: u8 :: id in m <==> HasOutput(t, NO_GLOBALS, id))
    && (forall id: u8 :: id in m ==> m[id] == (OutputBits(t, NO_GLOBALS, id) + 7) / 8)
  }

  lemma {:induction false} NoOutputNoBits(t: Tree, g: Globals, id: u8)
    requires IsTree(t) && !HasOutput(t, g, id)
    ensures OutputBits(t, g, id) == 0
  {
    match t
    case Done =>
    case Leaf(x, rest) => NoOutputNoBits(rest, Update(g, x), id);
    case Scope(_, body, _, rest) => NoOutputNoBits(body, g, id); NoOutputNoBits(rest, g, id);
  }

  /** Parsing a serialised tree gives exactly what the tree means. */
  lemma ParseOfTree(t: Tree, m: map<u8, nat>)
    requires IsTree(t)
    ensures Parse(Encode(Flatten(t))) == Ok(m) <==> Means(t, m)
  {
    var items := Flatten(t);
    ScanRuns(items, START);
    RunTree(t, START);
    assert Means(t, m) ==> Fits(t, NO_GLOBALS, START.bits);
    if Run(items, START).Ok? {
      FinishOfTree(t, Run(items, START).value, m);
    }
  }

  /** What `Finish` answers when nothing is left open. */
  lemma FinishIs(s: State, m: map<u8, nat>)
    requires s.stack == []
    ensures Finish(s) == Ok(m) <==>
      && (forall id: u8 | id in s.bits :: s.bits[id] + 7 <= U64_MAX)
      && (forall id: u8 :: id in m <==> id in s.bits)
      && (forall id: u8 | id in m && id in s.bits :: m[id] == (s.bits[id] + 7) / 8)
  {
    assert Finish(s).Ok? <==> forall id: u8 | id in s.bits :: s.bits[id] + 7 <= U64_MAX;
    if Finish(s).Ok? {
      SameMap(Finish(s).value, m);
    }
  }

  lemma SameMap(a: map<u8, nat>, b: map<u8, nat>)
    ensures a == b <==>
      (forall id: u8 :: id in b <==> id in a) && (forall id: u8 | id in b && id in a :: b[id] == a[id])
  {
    if (forall id: u8 :: id in b <==> id in a) && (forall id: u8 | id in b && id in a :: b[id] == a[id]) {
      assert a.Keys == b.Keys;
    }
  }

  lemma FinishOfTree(t: Tree, end: State, m: map<u8, nat>)
    requires IsTree(t) && Leads(t, START, end) && GoodIds(t)
    ensures Finish(end) == Ok(m) <==> Means(t, m)
  {
    FinishIs(end, m);
    forall id: u8
      ensures id in end.bits <==> HasOutput(t, NO_GLOBALS, id)
      ensures id in end.bits ==> end.bits[id] == OutputBits(t, NO_GLOBALS, id)
      ensures id !in end.bits ==> OutputBits(t, NO_GLOBALS, id) == 0
    {
      assert BitsOf(end.bits, id) == BitsOf(START.bits, id) + OutputBits(t, NO_GLOBALS, id);
      if !HasOutput(t, NO_GLOBALS, id) { NoOutputNoBits(t, NO_GLOBALS, id); }
    }
  }

  ghost predicate Serialises(t: Tree, b: seq<u8>) {
    IsTree(t) && Encode(Flatten(t)) == b
  }

  /** Main result: bytes are accepted with result `m` exactly when they serialise a
      tree of complete items with balanced scopes that means `m`. */
  lemma AcceptsExactlyTrees(b: seq<u8>, m: map<u8, nat>)
    ensures Parse(b) == Ok(m) <==> exists t :: Serialises(t, b) && Means(t, m)
  {
    if t :| Serialises(t, b) && Means(t, m) {
      ParseOfTree(t, m);
    }
    if Parse(b) == Ok(m) {
      var items := ScannedItems(b, START);
      ScanRuns(items, START);
      var t, left := SplitScopes(items, START);
      NothingLeft(items, t, left);
      assert items == Flatten(t);
      ParseOfTree(t, m);
      assert Serialises(t, b);
    }
  }

  lemma NothingLeft(items: seq<Item>, t: Tree, left: seq<Item>)
    requires AreItems(items) && Run(items, START).Ok? && Run(items, START).value.stack == []
    requires IsTree(t) && AreItems(left) && items == Flatten(t) + left
    requires left == [] || IsPop(left[0])
    ensures left == []
  {
    RunAppends(Flatten(t), left, START);
    RunTree(t, START);
  }

  // ---------------------------------------------------------------- neutral items

  lemma NeutralChangesNothing(x: Item, s: State)
    requires IsItem(x) && IsNeutral(x)
    ensures Apply(s, x) == Ok(s)
  {
  }

  /** Main result: inserting Input, Feature, Collection, local or long items
      anywhere between items changes nothing, errors included. */
  lemma NeutralItemsIgnored(a: seq<Item>, x: Item, b: seq<Item>)
    requires AreItems(a) && AreItems(b) && IsItem(x) && IsNeutral(x)
    ensures AreItems(a + [x] + b) && AreItems(a + b)
    ensures Parse(Encode(a + [x] + b)) == Parse(Encode(a + b))
  {
    var with, tail := a + [x] + b, [x] + b;
    assert with == a + tail && tail[1..] == b;
    RunAppends(a, tail, START);
    RunAppends(a, b, START);
    if Run(a, START).Ok? {
      NeutralChangesNothing(x, Run(a, START).value);
    }
    ScanRuns(with, START);
    ScanRuns(a + b, START);
  }

  // ---------------------------------------------------------------- in bytes

  lemma ScanOneByte(prefix: u8, value: u8, rest: seq<u8>, s: State)
    requires prefix % 4 == 1
    ensures Scan([prefix, value] + rest, s) == Continue(Interpret(s, prefix / 4 % 4, prefix / 16, value), rest)
  {
    var b := [prefix, value] + rest;
    assert b[1..2] == [value] && b[2..] == rest;
    assert [value][1..] == [] && UnsignedLE([value]) == value;
  }

  lemma ScanNoByte(prefix: u8, rest: seq<u8>, s: State)
    requires prefix % 4 == 0
    ensures Scan([prefix] + rest, s) == Continue(Interpret(s, prefix / 4 % 4, prefix / 16, 0), rest)
  {
    var b := [prefix] + rest;
    assert b[1..1] == [] && b[1..] == rest;
  }

  /** Report Size, Report Count and Report ID as bytes; ID 0 is refused. */
  lemma GlobalBytes(v: u8, rest: seq<u8>, s: State)
    ensures Scan([0x75, v] + rest, s) == Scan(rest, s.(globals := s.globals.(size := v)))
    ensures Scan([0x95, v] + rest, s) == Scan(rest, s.(globals := s.globals.(count := v)))
    ensures Scan([0x85, v] + rest, s) ==
      if v == 0 then Err(InvalidReportId(0)) else Scan(rest, s.(globals := s.globals.(id := v)))
  {
    hide Scan, ReadItem;
    ScanOneByte(0x75, v, rest, s);
    ScanOneByte(0x95, v, rest, s);
    ScanOneByte(0x85, v, rest, s);
  }

  /** Push and Pop as bytes. */
  lemma StackBytes(rest: seq<u8>, s: State)
    ensures Scan([0xa4] + rest, s) == Scan(rest, s.(stack := s.stack + [s.globals]))
    ensures Scan([0xb4] + rest, s.(stack := s.stack + [s.globals])) == Scan(rest, s)
    ensures s.stack == [] ==> Scan([0xb4] + rest, s) == Err(PopWithoutPush)
  {
    hide Scan, ReadItem;
    var pushed := s.(stack := s.stack + [s.globals]);
    ScanNoByte(0xa4, rest, s);
    ScanNoByte(0xb4, rest, pushed);
    ScanNoByte(0xb4, rest, s);
    assert pushed.stack[..|pushed.stack| - 1] == s.stack;
  }

  /** An Output item as bytes, whatever its flags. */
  lemma OutputBytes(flags: u8, rest: seq<u8>, s: State)
    ensures var g := s.globals;
      var sum := (if g.id in s.bits then s.bits[g.id] else 0) + g.size * g.count;
      Scan([0x91, flags] + rest, s) ==
        if sum > 0xFFFF_FFFF_FFFF_FFFF then Err(SizeOverflow) else Scan(rest, s.(bits := s.bits[g.id := sum]))
  {
    hide Scan, ReadItem;
    ScanOneByte(0x91, flags, rest, s);
    ProductFits(s.globals);
  }

  /** Report Size with two and with four data bytes. */
  lemma TwoBytes(a: u8, b: u8, rest: seq<u8>, s: State)
    ensures Scan([0x76, a, b] + rest, s) == Scan(rest, s.(globals := s.globals.(size := a + 0x100 * b)))
  {
    hide UnsignedLE;
    var bytes := [0x76, a, b] + rest;
    assert bytes[1..3] == [a, b] && bytes[3..] == rest;
    LittleEndian([a, b]);
    assert ReadItem(bytes) == Ok((Short(1, 7, [a, b]), 3));
  }

  lemma FourBytes(a: u8, b: u8, c: u8, d: u8, rest: seq<u8>, s: State)
    ensures Scan([0x77, a, b, c, d] + rest, s)
         == Scan(rest, s.(globals := s.globals.(size := a + 0x100 * b + 0x1_0000 * c + 0x100_0000 * d)))
  {
    hide UnsignedLE;
    var bytes := [0x77, a, b, c, d] + rest;
    assert bytes[1..5] == [a, b, c, d] && bytes[5..] == rest;
    LittleEndian([a, b, c, d]);
    assert ReadItem(bytes) == Ok((Short(1, 7, [a, b, c, d]), 5));
  }

  /** A long item is skipped whatever it holds. */
  lemma LongBytes(tag: u8, data: seq<u8>, rest: seq<u8>, s: State)
    requires |data| < 0x100
    ensures Scan([0xfe, |data|, tag] + data + rest, s) == Scan(rest, s)
  {
    var b := [0xfe, |data|, tag] + data + rest;
    assert b[3..3 + |data|] == data && b[3 + |data|..] == rest;
  }

  /** Bytes that end in the middle of an item. */
  lemma CutShort(b: seq<u8>, s: State)
    requires b != []
    ensures |b| < (if b[0] % 4 == 3 then 5 else b[0] % 4 + 1) && b[0] != 0xfe ==> Scan(b, s) == Err(TruncatedShortData)
    ensures b[0] == 0xfe && |b| < 3 ==> Scan(b, s) == Err(TruncatedLongHeader)
    ensures b[0] == 0xfe && 3 <= |b| && |b| - 3 < b[1] ==> Scan(b, s) == Err(TruncatedLongData)
  {
  }
}
