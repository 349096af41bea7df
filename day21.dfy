/**
 * Day 21 (src/days/day21.rs): monkeys shouting numbers. Every monkey has a
 * four-letter name packed into a 32-bit key, and either shouts a number or
 * combines the numbers of two other monkeys with + - * /. Part 1 evaluates
 * the root; part 2 replaces `humn` by an unknown input and inverts the
 * operations from the root down to find the input that makes both of the
 * root's operands equal.
 *
 * The entries form a map from keys to entries; the recursion through it
 * terminates because a ghost `rank` decreases from every monkey to its
 * operands (the source assumes the input is such a tree; a cycle would
 * recurse forever). The memory is a class whose map of stored values is,
 * as an invariant, a cache of the pure evaluation `Eval`.
 */
module Day21 {
  import opened Wrappers
  import RustInt

  // ---- Keys ----

  /** `struct Key(u32)`. */
  datatype Key = Key(bits: bv32)

  /** `Key::from_str`: four bytes, big-endian; any other length fails the source's assertion. */
  function Pack(s: seq<bv8>): (r: Option<Key>)
    ensures r.Some? <==> |s| == 4
  {
    if |s| != 4 then None
    else Some(Key(((s[0] as bv32) << 24) | ((s[1] as bv32) << 16) | ((s[2] as bv32) << 8) | (s[3] as bv32)))
  }

  /** `Debug for Key`: the four bytes back, each truncated to eight bits. */
  function Unpack(k: Key): (r: seq<bv8>)
    ensures |r| == 4
  {
    var b := k.bits;
    [((b >> 24) & 0xFF) as bv8, ((b >> 16) & 0xFF) as bv8, ((b >> 8) & 0xFF) as bv8, (b & 0xFF) as bv8]
  }

  /** The byte shifted to `shift` in a packed word comes back out of it. */
  lemma ByteOfWord(a: bv8, b: bv8, c: bv8, d: bv8)
    ensures var w := ((a as bv32) << 24) | ((b as bv32) << 16) | ((c as bv32) << 8) | (d as bv32);
      (w >> 24) & 0xFF == a as bv32 && (w >> 16) & 0xFF == b as bv32 &&
      (w >> 8) & 0xFF == c as bv32 && w & 0xFF == d as bv32
  {
    var a', b', c', d' := a as bv32, b as bv32, c as bv32, d as bv32;
    assert a' < 256 && b' < 256 && c' < 256 && d' < 256;
    var w := (a' << 24) | (b' << 16) | (c' << 8) | d';
    assert (w >> 24) & 0xFF == a';
    assert (w >> 16) & 0xFF == b';
    assert (w >> 8) & 0xFF == c';
    assert w & 0xFF == d';
  }

  /** Unpacking a packed name gives the name back. */
  lemma UnpackPack(s: seq<bv8>)
    requires |s| == 4
    ensures Unpack(Pack(s).value) == s
  {
    ByteOfWord(s[0], s[1], s[2], s[3]);
  }

  /** Distinct names give distinct keys. */
  lemma PackInjective(s: seq<bv8>, t: seq<bv8>)
    requires |s| == 4 && |t| == 4 && Pack(s) == Pack(t)
    ensures s == t
  {
    UnpackPack(s);
    UnpackPack(t);
  }

  /** "root" and "humn" in ASCII, and their keys. */
  const RootName: seq<bv8> := [0x72, 0x6f, 0x6f, 0x74]
  const HumanName: seq<bv8> := [0x68, 0x75, 0x6d, 0x6e]
  const Root: Key := Key(0x726f6f74)
  const Human: Key := Key(0x68756d6e)

  lemma NamedKeys()
    ensures Pack(RootName) == Some(Root) && Pack(HumanName) == Some(Human)
  {
  }

  // ---- Entries ----

  datatype Operator = Add | Sub | Mul | Div

  datatype Instruction = Input | Immediate(value: int) | Binary(op: Operator, x: Key, y: Key)

  datatype Entry = Entry(key: Key, instruction: Instruction)

  /** The operands of `ins`, if any, are entries of rank below `bound`. */
  ghost predicate Below(m: map<Key, Entry>, rank: map<Key, nat>, ins: Instruction, bound: nat)
  {
    ins.Binary? ==>
      ins.x in m && ins.y in m && ins.x in rank && ins.y in rank && rank[ins.x] < bound && rank[ins.y] < bound
  }

  /** Every entry is stored under its key, and its operands exist and rank below it. */
  ghost predicate WellFormed(m: map<Key, Entry>, rank: map<Key, nat>)
  {
    forall k :: k in m ==> m[k].key == k && k in rank && Below(m, rank, m[k].instruction, rank[k])
  }

  /** `collect::<FxHashMap<_, _>>()` keyed by each entry's key: a later entry replaces an earlier one. */
  function EntryMap(entries: seq<Entry>): (r: map<Key, Entry>)
    ensures forall k :: k in r <==> exists i :: 0 <= i < |entries| && entries[i].key == k
    ensures forall k :: k in r ==> r[k].key == k && r[k] in entries
  {
    if entries == [] then map[]
    else
      var init := entries[..|entries| - 1];
      var last := entries[|entries| - 1];
      var r := EntryMap(init)[last.key := last];
      assert forall i :: 0 <= i < |init| ==> init[i] == entries[i];
      r
  }

  // ---- Evaluation ----

  /** A value, the absence of one (an `Input` is reached), or a division by zero (a panic). */
  datatype Outcome = Known(value: int) | Unknown | Fault

  /** The arithmetic of one operator; Rust's `/` truncates toward zero and panics on zero. */
  function Apply(op: Operator, a: int, b: int): (r: Outcome)
    ensures r.Fault? <==> op == Div && b == 0
  {
    match op
    case Add => Known(a + b)
    case Sub => Known(a - b)
    case Mul => Known(a * b)
    case Div => if b == 0 then Fault else Known(RustInt.Quot(a, b))
  }

  /** A fault in either operand is a fault; otherwise an unknown operand makes the result unknown. */
  function Combine(op: Operator, ox: Outcome, oy: Outcome): (r: Outcome)
    ensures r.Known? <==> ox.Known? && oy.Known? && Apply(op, ox.value, oy.value).Known?
    ensures r.Unknown? <==> !ox.Fault? && !oy.Fault? && (ox.Unknown? || oy.Unknown?)
  {
    if ox.Fault? || oy.Fault? then Fault
    else if ox.Unknown? || oy.Unknown? then Unknown
    else Apply(op, ox.value, oy.value)
  }

  /**
   * The value of the entry under `k`. `human` is the value an `Input`
   * shouts: `None` leaves it unknown, as the memory of the source does.
   */
  function Eval(m: map<Key, Entry>, rank: map<Key, nat>, k: Key, human: Option<int>): Outcome
    requires WellFormed(m, rank) && k in m
    decreases rank[k], 1
  {
    EvalIns(m, rank, m[k].instruction, rank[k], human)
  }

  function EvalIns(m: map<Key, Entry>, rank: map<Key, nat>, ins: Instruction, bound: nat, human: Option<int>): Outcome
    requires WellFormed(m, rank) && Below(m, rank, ins, bound)
    decreases bound, 0
  {
    match ins
    case Input => if human.Some? then Known(human.value) else Unknown
    case Immediate(v) => Known(v)
    case Binary(op, x, y) => Combine(op, Eval(m, rank, x, human), Eval(m, rank, y, human))
  }

  /** A value that does not depend on the input keeps it whatever the input is. */
  lemma {:induction false} KnownWithHuman(m: map<Key, Entry>, rank: map<Key, nat>, k: Key, h: int)
    requires WellFormed(m, rank) && k in m && Eval(m, rank, k, None).Known?
    ensures Eval(m, rank, k, Some(h)) == Eval(m, rank, k, None)
    decreases rank[k]
  {
    if m[k].instruction.Binary? {
      KnownWithHuman(m, rank, m[k].instruction.x, h);
      KnownWithHuman(m, rank, m[k].instruction.y, h);
    }
  }

  // ---- Memory ----

  /** The stored values are what the entries evaluate to, the input unknown. */
  ghost predicate Cached(m: map<Key, Entry>, rank: map<Key, nat>, variables: map<Key, int>)
    requires WellFormed(m, rank)
  {
    forall k :: k in variables ==> k in m && Eval(m, rank, k, None) == Known(variables[k])
  }

  /** `Memory::run` does not panic: the entry is stored, or its operands are, with a nonzero divisor. */
  predicate Ready(variables: map<Key, int>, entry: Entry)
  {
    entry.key in variables || match entry.instruction
      case Binary(op, x, y) => x in variables && y in variables && (op == Div ==> variables[y] != 0)
      case _ => true
  }

  /** The stored values after `Memory::run(entry)`. */
  function Stored(variables: map<Key, int>, entry: Entry): map<Key, int>
    requires Ready(variables, entry)
  {
    if entry.key in variables then variables
    else match entry.instruction
      case Input => variables
      case Immediate(v) => variables[entry.key := v]
      case Binary(op, x, y) => variables[entry.key := Apply(op, variables[x], variables[y]).value]
  }

  /** Running an entry a second time changes nothing. */
  lemma StoredIdempotent(variables: map<Key, int>, entry: Entry)
    requires Ready(variables, entry)
    ensures Ready(Stored(variables, entry), entry)
    ensures Stored(Stored(variables, entry), entry) == Stored(variables, entry)
  {
  }

  /** Running keeps every stored value; it stores the entry's key exactly when it is not an `Input`. */
  lemma StoredKeys(variables: map<Key, int>, entry: Entry)
    requires Ready(variables, entry)
    ensures forall k :: k in variables ==> k in Stored(variables, entry) && Stored(variables, entry)[k] == variables[k]
    ensures entry.key in Stored(variables, entry) <==> entry.key in variables || !entry.instruction.Input?
    ensures forall k :: k in Stored(variables, entry) && k !in variables ==> k == entry.key
  {
  }

  /** Running an entry of the map stores its value as `Eval` defines it. */
  lemma StoredCached(m: map<Key, Entry>, rank: map<Key, nat>, variables: map<Key, int>, entry: Entry)
    requires WellFormed(m, rank) && Cached(m, rank, variables)
    requires entry.key in m && m[entry.key] == entry && Ready(variables, entry)
    ensures Cached(m, rank, Stored(variables, entry))
    ensures !entry.instruction.Input? ==> Eval(m, rank, entry.key, None).Known?
  {
    if entry.key !in variables && entry.instruction.Binary? {
      var x, y := entry.instruction.x, entry.instruction.y;
      assert Eval(m, rank, x, None) == Known(variables[x]);
      assert Eval(m, rank, y, None) == Known(variables[y]);
    }
  }

  class Memory {
    var variables: map<Key, int>

    constructor ()
      ensures variables == map[]
    {
      variables := map[];
    }

    /** `get`: indexing panics on a missing key. */
    function Get(key: Key): int
      reads this
      requires key in variables
    {
      variables[key]
    }

    /** `run`: store the entry's value unless it is stored already or is an `Input`. */
    method Run(entry: Entry)
      requires Ready(variables, entry)
      modifies this
      ensures variables == Stored(old(variables), entry)
    {
      if entry.key in variables {
        return;
      }
      var result;
      match entry.instruction {
        case Immediate(imm) =>
          result := imm;
        case Binary(op, x, y) =>
          result := Apply(op, Get(x), Get(y)).value;
        case Input =>
          return;
      }
      variables := variables[entry.key := result];
    }
  }

  /**
   * `Instruction::run_dependencies`: store the values of both operands
   * where they are known. The answer is whether the instruction's value is
   * known, i.e. whether no `Input` is reached.
   */
  method RunDependencies(ins: Instruction, m: map<Key, Entry>, ghost rank: map<Key, nat>, ghost bound: nat, mem: Memory)
      returns (r: bool)
    requires WellFormed(m, rank) && Below(m, rank, ins, bound) && Cached(m, rank, mem.variables)
    requires !EvalIns(m, rank, ins, bound, None).Fault?
    modifies mem
    decreases bound
    ensures Cached(m, rank, mem.variables)
    ensures forall k :: k in old(mem.variables) ==> k in mem.variables
    ensures r <==> EvalIns(m, rank, ins, bound, None).Known?
    ensures r && ins.Binary? ==> ins.x in mem.variables && ins.y in mem.variables
  {
    match ins {
      case Binary(_, x, y) =>
        var r1 := RunDependencies(m[x].instruction, m, rank, rank[x], mem);
        var r2 := RunDependencies(m[y].instruction, m, rank, rank[y], mem);
        if r1 {
          RunStored(m, rank, mem, x);
        }
        if r2 {
          RunStored(m, rank, mem, y);
        }
        r := r1 && r2;
      case Input =>
        r := false;
      case Immediate(_) =>
        r := true;
    }
  }

  /** `mem.run(map[k])` for an entry whose value is known and whose operands are stored. */
  method RunStored(m: map<Key, Entry>, ghost rank: map<Key, nat>, mem: Memory, k: Key)
    requires WellFormed(m, rank) && k in m && Cached(m, rank, mem.variables)
    requires Eval(m, rank, k, None).Known?
    requires k in mem.variables || (m[k].instruction.Binary? ==> m[k].instruction.x in mem.variables && m[k].instruction.y in mem.variables)
    modifies mem
    ensures Cached(m, rank, mem.variables) && k in mem.variables
    ensures forall j :: j in old(mem.variables) ==> j in mem.variables
  {
    var entry := m[k];
    if entry.key !in mem.variables && entry.instruction.Binary? {
      var y := entry.instruction.y;
      assert Eval(m, rank, y, None) == Known(mem.variables[y]);
    }
    StoredCached(m, rank, mem.variables, entry);
    StoredKeys(mem.variables, entry);
    mem.Run(entry);
  }

  /** `Entry::run`: the entry's value, if no `Input` is reached. */
  method EntryRun(entry: Entry, m: map<Key, Entry>, ghost rank: map<Key, nat>, mem: Memory) returns (r: Option<int>)
    requires WellFormed(m, rank) && entry.key in m && m[entry.key] == entry && Cached(m, rank, mem.variables)
    requires !Eval(m, rank, entry.key, None).Fault?
    modifies mem
    ensures Cached(m, rank, mem.variables)
    ensures forall k :: k in old(mem.variables) ==> k in mem.variables
    ensures r.Some? <==> Eval(m, rank, entry.key, None).Known?
    ensures r.Some? ==> Eval(m, rank, entry.key, None) == Known(r.value) && entry.key in mem.variables
  {
    var ok := RunDependencies(entry.instruction, m, rank, rank[entry.key], mem);
    if ok {
      RunStored(m, rank, mem, entry.key);
      r := Some(mem.Get(entry.key));
    } else {
      r := None;
    }
  }

  // ---- Inverting towards the human ----

  /** `Err(value)`: the input reached with the value it must have; `Ok(target)`: an immediate reached instead. */
  datatype Solve = Reached(human: int) | NoHuman(target: int)

  /**
   * The target for the right operand when the left one is known to be
   * `vx`; `None` where the source divides by zero.
   */
  function UndoLeft(op: Operator, vx: int, target: int): Option<int>
  {
    match op
    case Add => Some(target - vx)
    case Sub => Some(vx - target)
    case Mul => if vx == 0 then None else Some(RustInt.Quot(target, vx))
    case Div => if target == 0 then None else Some(RustInt.Quot(vx, target))
  }

  /** The target for the left operand when the right one is known to be `vy`. */
  function UndoRight(op: Operator, vy: int, target: int): Option<int>
  {
    match op
    case Add => Some(target - vy)
    case Sub => Some(target + vy)
    case Mul => if vy == 0 then None else Some(RustInt.Quot(target, vy))
    case Div => Some(target * vy)
  }

  /** The division undoing the operation leaves no remainder, and the operation then divides by no zero. */
  predicate ExactLeft(op: Operator, vx: int, target: int)
  {
    match op
    case Mul => vx != 0 && RustInt.Quot(target, vx) * vx == target
    case Div => target != 0 && RustInt.Quot(vx, target) != 0 && RustInt.Quot(vx, target) * target == vx
    case _ => true
  }

  predicate ExactRight(op: Operator, vy: int, target: int)
  {
    match op
    case Mul => vy != 0 && RustInt.Quot(target, vy) * vy == target
    case Div => vy != 0
    case _ => true
  }

  /** Undoing with the left operand known: applying the operation to the new target gives the old one back. */
  lemma UndoLeftSound(op: Operator, vx: int, target: int)
    requires UndoLeft(op, vx, target).Some? && ExactLeft(op, vx, target)
    ensures Apply(op, vx, UndoLeft(op, vx, target).value) == Known(target)
  {
    if op == Div {
      QuotOfMultiple(target, RustInt.Quot(vx, target));
    }
  }

  /** Undoing with the right operand known. */
  lemma UndoRightSound(op: Operator, vy: int, target: int)
    requires UndoRight(op, vy, target).Some? && ExactRight(op, vy, target)
    ensures Apply(op, UndoRight(op, vy, target).value, vy) == Known(target)
  {
    if op == Div {
      QuotOfMultiple(target, vy);
    }
  }

  /** Truncating division undoes a multiplication. */
  lemma QuotOfMultiple(q: int, d: int)
    requires d != 0
    ensures RustInt.Quot(q * d, d) == q
  {
    if q * d >= 0 {
      RustInt.ModUnique(q * d, d, q, 0);
    } else {
      assert -(q * d) == (-q) * d;
      RustInt.ModUnique(-(q * d), d, -q, 0);
    }
  }

  /**
   * `run_until_human` as a function: follow the operand that depends on the
   * input, undoing the operation on the target. `None` where the source
   * panics: both or neither operand known (`unreachable!()`), or a zero
   * divisor.
   */
  function Invert(m: map<Key, Entry>, rank: map<Key, nat>, k: Key, target: int): Option<Solve>
    requires WellFormed(m, rank) && k in m
    decreases rank[k]
  {
    match m[k].instruction
    case Input => Some(Reached(target))
    case Immediate(_) => Some(NoHuman(target))
    case Binary(op, x, y) =>
      var ox, oy := Eval(m, rank, x, None), Eval(m, rank, y, None);
      if ox.Known? && oy.Unknown? then
        match UndoLeft(op, ox.value, target)
        case None => None
        case Some(t) => Invert(m, rank, y, t)
      else if ox.Unknown? && oy.Known? then
        match UndoRight(op, oy.value, target)
        case None => None
        case Some(t) => Invert(m, rank, x, t)
      else None
  }

  /** Every division on the inverted path leaves no remainder, and the path divides by no zero. */
  ghost predicate Exact(m: map<Key, Entry>, rank: map<Key, nat>, k: Key, target: int)
    requires WellFormed(m, rank) && k in m
    decreases rank[k]
  {
    match m[k].instruction
    case Binary(op, x, y) =>
      var ox, oy := Eval(m, rank, x, None), Eval(m, rank, y, None);
      if ox.Known? && oy.Unknown? then
        ExactLeft(op, ox.value, target) &&
        (UndoLeft(op, ox.value, target).Some? ==> Exact(m, rank, y, UndoLeft(op, ox.value, target).value))
      else if ox.Unknown? && oy.Known? then
        ExactRight(op, oy.value, target) &&
        (UndoRight(op, oy.value, target).Some? ==> Exact(m, rank, x, UndoRight(op, oy.value, target).value))
      else true
    case _ => true
  }

  /**
   * The inversion is sound: the value it finds for the input makes the
   * entry evaluate to the target, when no division on the way truncates.
   */
  lemma {:induction false} InvertSound(m: map<Key, Entry>, rank: map<Key, nat>, k: Key, target: int, h: int)
    requires WellFormed(m, rank) && k in m
    requires Invert(m, rank, k, target) == Some(Reached(h)) && Exact(m, rank, k, target)
    ensures Eval(m, rank, k, Some(h)) == Known(target)
    decreases rank[k]
  {
    match m[k].instruction
    case Input =>
    case Immediate(_) =>
    case Binary(op, x, y) =>
      var ox, oy := Eval(m, rank, x, None), Eval(m, rank, y, None);
      if ox.Known? && oy.Unknown? {
        var t := UndoLeft(op, ox.value, target).value;
        KnownWithHuman(m, rank, x, h);
        InvertSound(m, rank, y, t, h);
        UndoLeftSound(op, ox.value, target);
      } else {
        var t := UndoRight(op, oy.value, target).value;
        KnownWithHuman(m, rank, y, h);
        InvertSound(m, rank, x, t, h);
        UndoRightSound(op, oy.value, target);
      }
  }

  /** `Entry::run_until_human`, proved against `Invert`. */
  method RunUntilHuman(entry: Entry, m: map<Key, Entry>, ghost rank: map<Key, nat>, target: int, mem: Memory)
      returns (r: Option<Solve>)
    requires WellFormed(m, rank) && entry.key in m && m[entry.key] == entry && Cached(m, rank, mem.variables)
    requires !Eval(m, rank, entry.key, None).Fault?
    modifies mem
    decreases rank[entry.key]
    ensures Cached(m, rank, mem.variables)
    ensures r == Invert(m, rank, entry.key, target)
  {
    match entry.instruction {
      case Input =>
        r := Some(Reached(target));
      case Immediate(_) =>
        r := Some(NoHuman(target));
      case Binary(op, x, y) =>
        var rx := EntryRun(m[x], m, rank, mem);
        var ry := EntryRun(m[y], m, rank, mem);
        if rx.Some? && ry.None? {
          var vx := rx.value;
          match op {
            case Add => r := RunUntilHuman(m[y], m, rank, target - vx, mem);
            case Sub => r := RunUntilHuman(m[y], m, rank, vx - target, mem);
            case Mul =>
              if vx == 0 {
                return None;
              }
              r := RunUntilHuman(m[y], m, rank, RustInt.Quot(target, vx), mem);
            case Div =>
              if target == 0 {
                return None;
              }
              r := RunUntilHuman(m[y], m, rank, RustInt.Quot(vx, target), mem);
          }
        } else if rx.None? && ry.Some? {
          var vy := ry.value;
          match op {
            case Add => r := RunUntilHuman(m[x], m, rank, target - vy, mem);
            case Sub => r := RunUntilHuman(m[x], m, rank, target + vy, mem);
            case Mul =>
              if vy == 0 {
                return None;
              }
              r := RunUntilHuman(m[x], m, rank, RustInt.Quot(target, vy), mem);
            case Div => r := RunUntilHuman(m[x], m, rank, target * vy, mem);
          }
        } else {
          r := None;
        }
    }
  }

  // ---- The two parts ----

  /** `part1`: the root's value. `None` where the source panics: no root, or an `Input` reached. */
  method Part1(entries: seq<Entry>, ghost rank: map<Key, nat>) returns (r: Option<int>)
    requires WellFormed(EntryMap(entries), rank)
    requires Root in EntryMap(entries) ==> !Eval(EntryMap(entries), rank, Root, None).Fault?
    ensures Root !in EntryMap(entries) ==> r.None?
    ensures Root in EntryMap(entries) ==>
      (r.Some? <==> Eval(EntryMap(entries), rank, Root, None).Known?) &&
      (r.Some? ==> Eval(EntryMap(entries), rank, Root, None) == Known(r.value))
  {
    var memory := new Memory();
    var entryMap := EntryMap(entries);
    if Root !in entryMap {
      return None;
    }
    var ok := RunDependencies(entryMap[Root].instruction, entryMap, rank, rank[Root], memory);
    if !ok {
      // `memory.run` then reads an operand that was never stored.
      return None;
    }
    RunStored(entryMap, rank, memory, Root);
    r := Some(memory.Get(Root));
  }

  /** The entries of part 2: `humn` becomes the input. */
  function Humanised(m: map<Key, Entry>): (r: map<Key, Entry>)
    ensures Human in r && r[Human] == Entry(Human, Input)
  {
    m[Human := Entry(Human, Input)]
  }

  /** The input has no operands, so a ranking of the entries still ranks them with `humn` as the input. */
  lemma HumanisedWellFormed(m: map<Key, Entry>, rank: map<Key, nat>)
    requires WellFormed(m, rank) && Human in rank
    ensures WellFormed(Humanised(m), rank)
  {
    var m' := Humanised(m);
    forall k | k in m' ensures m'[k].key == k && k in rank && Below(m', rank, m'[k].instruction, rank[k]) {
    }
  }

  /**
   * The answer of part 2 as a function: of the root's two operands, the
   * one whose value is known gives the target, and the other one is
   * inverted down to the input. `None` where the source panics: no root, a
   * root that is not an operation, both or neither operand known, or an
   * inversion that ends at an immediate (`unwrap_err`).
   */
  function Solution(m: map<Key, Entry>, rank: map<Key, nat>): Option<int>
    requires WellFormed(m, rank)
  {
    if Root !in m || !m[Root].instruction.Binary? then None
    else
      var x, y := m[Root].instruction.x, m[Root].instruction.y;
      var ox, oy := Eval(m, rank, x, None), Eval(m, rank, y, None);
      if ox.Known? == oy.Known? then None
      else
        var (immediate, human) := if ox.Known? then (x, y) else (y, x);
        match Invert(m, rank, human, Eval(m, rank, immediate, None).value)
        case Some(Reached(h)) => Some(h)
        case _ => None
  }

  /** Both operands of the root are exact to solve for. */
  ghost predicate RootExact(m: map<Key, Entry>, rank: map<Key, nat>)
    requires WellFormed(m, rank)
  {
    Root in m && m[Root].instruction.Binary? &&
    var x, y := m[Root].instruction.x, m[Root].instruction.y;
    (Eval(m, rank, x, None).Known? ==> Exact(m, rank, y, Eval(m, rank, x, None).value)) &&
    (Eval(m, rank, y, None).Known? ==> Exact(m, rank, x, Eval(m, rank, y, None).value))
  }

  /**
   * A solution exists only when exactly one operand of the root depends on
   * the input; and, divisions being exact, the input it names makes the
   * root's two operands equal.
   */
  lemma SolutionSound(m: map<Key, Entry>, rank: map<Key, nat>, h: int)
    requires WellFormed(m, rank) && Solution(m, rank) == Some(h)
    ensures Root in m && m[Root].instruction.Binary?
    ensures var x, y := m[Root].instruction.x, m[Root].instruction.y;
      Eval(m, rank, x, None).Known? != Eval(m, rank, y, None).Known?
    ensures RootExact(m, rank) ==>
      var x, y := m[Root].instruction.x, m[Root].instruction.y;
      Eval(m, rank, x, Some(h)).Known? && Eval(m, rank, x, Some(h)) == Eval(m, rank, y, Some(h))
  {
    var x, y := m[Root].instruction.x, m[Root].instruction.y;
    if RootExact(m, rank) {
      if Eval(m, rank, x, None).Known? {
        KnownWithHuman(m, rank, x, h);
        InvertSound(m, rank, y, Eval(m, rank, x, None).value, h);
      } else {
        KnownWithHuman(m, rank, y, h);
        InvertSound(m, rank, x, Eval(m, rank, y, None).value, h);
      }
    }
  }

  /** `part2`, proved against `Solution`. */
  method Part2(entries: seq<Entry>, ghost rank: map<Key, nat>) returns (r: Option<int>)
    requires WellFormed(Humanised(EntryMap(entries)), rank)
    requires Root in EntryMap(entries) ==> !Eval(Humanised(EntryMap(entries)), rank, Root, None).Fault?
    ensures r == Solution(Humanised(EntryMap(entries)), rank)
  {
    var memory := new Memory();
    var entryMap := Humanised(EntryMap(entries));
    if Root !in entryMap || !entryMap[Root].instruction.Binary? {
      // `dependencies` panics on a root that is not an operation.
      return None;
    }
    var x, y := entryMap[Root].instruction.x, entryMap[Root].instruction.y;
    var vx := EntryRun(entryMap[x], entryMap, rank, memory);
    var vy := EntryRun(entryMap[y], entryMap, rank, memory);
    if vx.Some? == vy.Some? {
      // One side of the partition is empty, and indexing it panics.
      return None;
    }
    var immediateBranch, humanBranch := if vx.Some? then x else y, if vx.Some? then y else x;
    RunStored(entryMap, rank, memory, immediateBranch);
    var targetValue := memory.Get(immediateBranch);
    var solved := RunUntilHuman(entryMap[humanBranch], entryMap, rank, targetValue, memory);
    r := if solved.Some? && solved.value.Reached? then Some(solved.value.human) else None;
  }
}
