// The code that hsc_stoptype emits, as a small syntax tree, and what it does to memory.  A variable gets its
// type where Haskell infers it: from its place under the constructor, or from the signature of the setter.
module Marshal {
  import opened Options
  import opened Storable
  import opened Structs

  datatype DataField = DataField(name: string, isList: bool, ty: string)

  // p'T'f p = plusPtr p offset :: Ptr ty
  datatype Pointer = Pointer(offset: nat, ty: string)

  datatype Var = V(i: nat) | Vf

  datatype Rhs =
    | ReturnEmpty
    | PeekElements(arraySize: nat, sizeTy: string, offset: nat)
    | PeekByteOff(offset: nat)

  datatype Bind = Bind(v: Var, rhs: Rhs)

  datatype Stmt =
    | PokeAll(offset: nat, v: Var)
    | PokeTake(arraySize: nat, sizeTy: string, offset: nat, v: Var)
    | PokeByteOff(offset: nat, v: Var)

  // u'T'f v vf: poke v, do one write, peek, and take some fields from what was peeked.
  datatype Setter = Setter(field: nat, isList: bool, ty: string, write: Stmt, taken: seq<nat>)

  datatype Instance = Instance(
    con: string, decl: seq<DataField>, pointers: seq<Pointer>, setters: seq<Setter>, size: nat, alignment: nat,
    binds: seq<Bind>, args: seq<Var>, params: seq<Var>, body: seq<Stmt>)

  // ---- semantics; None stands for code that does not type-check ----

  // The first place of v in a list of variables, or the length of the list.
  function Place(names: seq<Var>, v: Var): (k: nat)
    ensures k <= |names|
  {
    if names == [] || names[0] == v then 0 else 1 + Place(names[1..], v)
  }

  function Eval(e: Rhs, d: DataField, cs: Codecs, m: Memory, p: int): Option<FieldValue> {
    match e
    case ReturnEmpty => if d.isList then Some(Many([])) else None
    case PeekElements(n, t, off) =>
      if d.isList && cs(t).size > 0 then Some(Many(PeekArray(cs(d.ty), m, p + off, n / cs(t).size))) else None
    case PeekByteOff(off) =>
      if !d.isList then Some(One(cs(d.ty).dec(Read(m, p + off, cs(d.ty).size)))) else None
  }

  type Env = map<Var, FieldValue>

  function RunBinds(decl: seq<DataField>, args: seq<Var>, bs: seq<Bind>, cs: Codecs, m: Memory, p: int,
      env: Env): Option<Env>
    decreases |bs|
  {
    if bs == [] then Some(env)
    else
      var k := Place(args, bs[0].v);
      if k >= |decl| then None
      else
        var x := Eval(bs[0].rhs, decl[k], cs, m, p);
        if x.None? then None else RunBinds(decl, args, bs[1..], cs, m, p, env[bs[0].v := x.value])
  }

  function RunPeek(inst: Instance, cs: Codecs, m: Memory, p: int): Option<seq<FieldValue>> {
    var env := RunBinds(inst.decl, inst.args, inst.binds, cs, m, p, map[]);
    if env.Some? && |inst.args| == |inst.decl| && forall v | v in inst.args :: v in env.value
    then Some(seq(|inst.args|, k requires 0 <= k < |inst.args| => env.value[inst.args[k]]))
    else None
  }

  function Exec(s: Stmt, isList: bool, ty: string, w: FieldValue, cs: Codecs, m: Memory, p: int): Option<Memory> {
    if isList != w.Many? then None
    else match s
      case PokeAll(off, _) => if isList then Some(PokeArray(cs(ty), m, p + off, w.vs)) else None
      case PokeTake(n, t, off, _) =>
        if isList && cs(t).size > 0 then Some(PokeArray(cs(ty), m, p + off, Take(n / cs(t).size, w.vs))) else None
      case PokeByteOff(off, _) => if !isList then Some(Write(m, p + off, cs(ty).enc(w.v))) else None
  }

  function RunStmts(decl: seq<DataField>, params: seq<Var>, vs: seq<FieldValue>, ss: seq<Stmt>, cs: Codecs,
      m: Memory, p: int): Option<Memory>
    requires |vs| == |decl|
    decreases |ss|
  {
    if ss == [] then Some(m)
    else
      var k := Place(params, ss[0].v);
      if k >= |decl| then None
      else
        var m1 := Exec(ss[0], decl[k].isList, decl[k].ty, vs[k], cs, m, p);
        if m1.None? then None else RunStmts(decl, params, vs, ss[1..], cs, m1.value, p)
  }

  function RunPoke(inst: Instance, cs: Codecs, m: Memory, p: int, vs: seq<FieldValue>): Option<Memory> {
    if |vs| == |inst.decl| == |inst.params| then RunStmts(inst.decl, inst.params, vs, inst.body, cs, m, p) else None
  }

  // Record updates, one field after the other.
  function TakeOver(vs: seq<FieldValue>, us: seq<FieldValue>, js: seq<nat>): Option<seq<FieldValue>>
    decreases |js|
  {
    if js == [] then Some(vs)
    else if js[0] < |vs| && js[0] < |us| then TakeOver(vs[js[0] := us[js[0]]], us, js[1..])
    else None
  }

  // The memory after the two writes of a setter; p is the address that alloca gives, and m the memory then.
  function SetterMemory(inst: Instance, s: Setter, cs: Codecs, m: Memory, p: int, vs: seq<FieldValue>,
                        w: FieldValue): Option<Memory>
  {
    var m1 := RunPoke(inst, cs, m, p, vs);
    if m1.None? || s.write.v != Vf then None else Exec(s.write, s.isList, s.ty, w, cs, m1.value, p)
  }

  function RunSetter(inst: Instance, s: Setter, cs: Codecs, m: Memory, p: int, vs: seq<FieldValue>,
                     w: FieldValue): Option<seq<FieldValue>>
  {
    var m2 := SetterMemory(inst, s, cs, m, p, vs, w);
    if m2.None? then None
    else
      var us := RunPeek(inst, cs, m2.value, p);
      if us.None? then None else TakeOver(vs, us.value, s.taken)
  }

  // ---- what is emitted for a table of fields ----

  function DeclOf(f: Field): DataField { DataField(f.name, IsList(f), f.ty) }

  function PointerOf(f: Field): Pointer { Pointer(f.offset, f.ty) }

  function RhsOf(f: Field): Rhs {
    if f.isFam then ReturnEmpty
    else if f.arraySize > 0 then PeekElements(f.arraySize, f.ty, f.offset)
    else PeekByteOff(f.offset)
  }

  function StmtOf(f: Field, v: Var): Stmt {
    if f.isFam then PokeAll(f.offset, v)
    else if f.arraySize > 0 then PokeTake(f.arraySize, f.ty, f.offset, v)
    else PokeByteOff(f.offset, v)
  }

  // The union fields among the first n.
  function Unions(fs: seq<Field>, n: nat): seq<nat>
    requires n <= |fs|
  {
    if n == 0 then [] else Unions(fs, n - 1) + (if fs[n - 1].isUnion then [n - 1] else [])
  }

  function SetterOf(fs: seq<Field>, i: nat): Setter
    requires i < |fs|
  {
    Setter(i, fs[i].arraySize > 0, fs[i].ty,
      if fs[i].arraySize > 0 then PokeTake(fs[i].arraySize, fs[i].ty, fs[i].offset,
          Vf) else PokeByteOff(fs[i].offset, Vf),
      Unions(fs, |fs|))
  }

  // One setter for each union field among the first n.
  function Setters(fs: seq<Field>, n: nat): seq<Setter>
    requires n <= |fs|
  {
    if n == 0 then [] else Setters(fs, n - 1) + (if fs[n - 1].isUnion then [SetterOf(fs, n - 1)] else [])
  }

  function Vars(n: nat): (vs: seq<Var>) { seq(n, i requires 0 <= i < n => V(i)) }

  function Decls(fs: seq<Field>): seq<DataField> { seq(|fs|, i requires 0 <= i < |fs| => DeclOf(fs[i])) }

  function Pointers(fs: seq<Field>): seq<Pointer> { seq(|fs|, i requires 0 <= i < |fs| => PointerOf(fs[i])) }

  function Binds(fs: seq<Field>): seq<Bind> { seq(|fs|, i requires 0 <= i < |fs| => Bind(V(i), RhsOf(fs[i]))) }

  function Stmts(fs: seq<Field>): seq<Stmt> { seq(|fs|, i requires 0 <= i < |fs| => StmtOf(fs[i], V(i))) }

  function Compile(con: string, fs: seq<Field>, size: nat, alignment: nat): Instance {
    Instance(con, Decls(fs), Pointers(fs), Setters(fs, |fs|), size, alignment, Binds(fs), Vars(|fs|), Vars(|fs|),
        Stmts(fs))
  }

  // inst is emitted for the fields fs, whose types are as the code writes them.
  predicate Emitted(inst: Instance, fs: seq<Field>) {
    inst == Compile(inst.con, fs, inst.size, inst.alignment) && Produced(fs)
  }

  // ---- the emitted code does what the marshalling of structs asks for ----

  lemma {:induction false} PlaceOf(names: seq<Var>, i: nat)
    requires i < |names| && forall k | 0 <= k < i :: names[k] != names[i]
    ensures Place(names, names[i]) == i
    decreases i
  {
    if i > 0 {
      assert names[1..][i - 1] == names[i];
      forall k | 0 <= k < i - 1 ensures names[1..][k] != names[1..][i - 1] { assert names[1..][k] == names[k + 1]; }
      PlaceOf(names[1..], i - 1);
    }
  }

  lemma VarPlace(n: nat, i: nat)
    requires i < n
    ensures Place(Vars(n), V(i)) == i
  {
    assert Vars(n)[i] == V(i);
    PlaceOf(Vars(n), i);
  }

  // The values of the first j fields have been bound.
  ghost predicate BoundTo(env: Env, vs: seq<FieldValue>, j: nat)
    requires j <= |vs|
  {
    forall i | 0 <= i < j :: V(i) in env && env[V(i)] == vs[i]
  }

  lemma EvalField(f: Field, cs: Codecs, m: Memory, p: int)
    requires cs(f.ty).size > 0
    ensures Eval(RhsOf(f), DeclOf(f), cs, m, p) == Some(PeekField(f, cs(f.ty), m, p))
  {
  }

  // One statement of peek.
  lemma OneBind(inst: Instance, fs: seq<Field>, cs: Codecs, m: Memory, p: int, j: nat, env: Env)
    requires inst == Compile(inst.con, fs, inst.size, inst.alignment) && AllSized(fs, cs) && j < |fs|
    ensures RunBinds(inst.decl, inst.args, inst.binds[j..], cs, m, p, env)
         == RunBinds(inst.decl, inst.args, inst.binds[j + 1..], cs, m, p, env[V(j) := PeekField(fs[j], cs(fs[j].ty),
             m, p)])
  {
    var bs := inst.binds[j..];
    assert bs[0] == Bind(V(j), RhsOf(fs[j])) && bs[1..] == inst.binds[j + 1..];
    VarPlace(|fs|, j);
    EvalField(fs[j], cs, m, p);
  }

  lemma {:induction false} BindsFrom(inst: Instance, fs: seq<Field>, cs: Codecs, m: Memory, p: int, j: nat, env: Env)
    requires inst == Compile(inst.con, fs, inst.size, inst.alignment) && AllSized(fs, cs) && j <= |fs|
    requires BoundTo(env, PeekFields(fs, cs, m, p), j)
    ensures var r := RunBinds(inst.decl, inst.args, inst.binds[j..], cs, m, p, env);
      r.Some? && BoundTo(r.value, PeekFields(fs, cs, m, p), |fs|)
    decreases |fs| - j
  {
    if j < |fs| {
      OneBind(inst, fs, cs, m, p, j, env);
      BindsFrom(inst, fs, cs, m, p, j + 1, env[V(j) := PeekField(fs[j], cs(fs[j].ty), m, p)]);
    }
  }

  // The emitted peek type-checks and reads every field.
  lemma CompiledPeek(inst: Instance, fs: seq<Field>, cs: Codecs, m: Memory, p: int)
    requires inst == Compile(inst.con, fs, inst.size, inst.alignment) && AllSized(fs, cs)
    ensures RunPeek(inst, cs, m, p) == Some(PeekFields(fs, cs, m, p))
  {
    BindsFrom(inst, fs, cs, m, p, 0, map[]);
    assert inst.binds[0..] == inst.binds;
    var vs := PeekFields(fs, cs, m, p);
    var r := RunPeek(inst, cs, m, p);
    assert r.Some? && |r.value| == |vs|;
    assert forall i | 0 <= i < |fs| :: inst.args[i] == V(i) && r.value[i] == vs[i];
    assert r.value == vs;
  }

  lemma ExecField(f: Field, v: Var, w: FieldValue, cs: Codecs, m: Memory, p: int)
    requires cs(f.ty).size > 0 && Shaped(f, w)
    ensures Exec(StmtOf(f, v), IsList(f), f.ty, w, cs, m, p) == Some(PokeField(f, cs(f.ty), m, p, w))
  {
  }

  lemma {:induction false} StmtsFrom(inst: Instance, fs: seq<Field>, cs: Codecs, m: Memory, p: int,
      vs: seq<FieldValue>, j: nat)
    requires inst == Compile(inst.con, fs, inst.size, inst.alignment) && AllSized(fs, cs) && AllShaped(fs,
        vs) && j <= |fs|
    ensures RunStmts(inst.decl, inst.params, vs, inst.body[j..], cs, m, p) == Some(PokeFields(fs[j..], cs, m, p,
        vs[j..]))
    decreases |fs| - j
  {
    if j < |fs| {
      var ss := inst.body[j..];
      assert ss[0] == StmtOf(fs[j], V(j)) && ss[1..] == inst.body[j + 1..];
      assert fs[j..][1..] == fs[j + 1..] && vs[j..][1..] == vs[j + 1..];
      VarPlace(|fs|, j);
      ExecField(fs[j], V(j), vs[j], cs, m, p);
      StmtsFrom(inst, fs, cs, PokeField(fs[j], cs(fs[j].ty), m, p, vs[j]), p, vs, j + 1);
    }
  }

  // The emitted poke type-checks and writes every field, in order.
  lemma CompiledPoke(inst: Instance, fs: seq<Field>, cs: Codecs, m: Memory, p: int, vs: seq<FieldValue>)
    requires inst == Compile(inst.con, fs, inst.size, inst.alignment) && AllSized(fs, cs) && AllShaped(fs, vs)
    ensures RunPoke(inst, cs, m, p, vs) == Some(PokeFields(fs, cs, m, p, vs))
  {
    StmtsFrom(inst, fs, cs, m, p, vs, 0);
    assert fs[0..] == fs && vs[0..] == vs && inst.body[0..] == inst.body;
  }

  lemma {:induction false} UnionsAre(fs: seq<Field>, n: nat, j: nat)
    requires n <= |fs|
    ensures j in Unions(fs, n) <==> j < n && fs[j].isUnion
  {
    if n > 0 { UnionsAre(fs, n - 1, j); }
  }

  // Every union field has its setter, and there are no other setters.
  lemma {:induction false} SettersAre(fs: seq<Field>, n: nat, s: Setter)
    requires n <= |fs|
    ensures s in Setters(fs, n) <==> s.field < n && fs[s.field].isUnion && s == SetterOf(fs, s.field)
  {
    if n > 0 { SettersAre(fs, n - 1, s); }
  }

  lemma {:induction false} TakenOver(vs: seq<FieldValue>, us: seq<FieldValue>, js: seq<nat>)
    requires |us| == |vs| && forall j | j in js :: j < |vs|
    ensures var r := TakeOver(vs, us, js);
      r.Some? && |r.value| == |vs| && forall i | 0 <= i < |vs| :: r.value[i] == if i in js then us[i] else vs[i]
    decreases |js|
  {
    if js != [] {
      assert js[0] in js;
      forall j | j in js[1..] ensures j < |vs| { assert j in js; }
      TakenOver(vs[js[0] := us[js[0]]], us, js[1..]);
      assert js == [js[0]] + js[1..];
    }
  }

  // The emitted setter of a union field updates the union.
  lemma CompiledSetter(inst: Instance, fs: seq<Field>, s: Setter, cs: Codecs, m: Memory, p: int,
      vs: seq<FieldValue>, w: FieldValue)
    requires inst == Compile(inst.con, fs, inst.size, inst.alignment) && AllSized(fs, cs) && AllShaped(fs, vs)
    requires Produced(fs) && s in inst.setters && s.field < |fs| && Shaped(fs[s.field], w)
    ensures SetterMemory(inst, s, cs, m, p, vs, w) == Some(UpdatedMemory(fs, cs, m, p, vs, s.field, w))
    ensures RunSetter(inst, s, cs, m, p, vs, w) == Some(UpdateUnion(fs, cs, m, p, vs, s.field, w))
  {
    var k := s.field;
    var m1 := PokeFields(fs, cs, m, p, vs);
    var m2 := UpdatedMemory(fs, cs, m, p, vs, k, w);
    SettersAre(fs, |fs|, s);
    CompiledPoke(inst, fs, cs, m, p, vs);
    ExecField(fs[k], Vf, w, cs, m1, p);
    CompiledPeek(inst, fs, cs, m2, p);
    UnionsTaken(fs, cs, m, p, vs, k, w);
  }

  lemma UnionsTaken(fs: seq<Field>, cs: Codecs, m: Memory, p: int, vs: seq<FieldValue>, k: nat, w: FieldValue)
    requires AllSized(fs, cs) && AllShaped(fs, vs) && k < |fs| && Shaped(fs[k], w)
    ensures TakeOver(vs, PeekFields(fs, cs, UpdatedMemory(fs, cs, m, p, vs, k, w), p), Unions(fs, |fs|))
         == Some(UpdateUnion(fs, cs, m, p, vs, k, w))
  {
    var us := PeekFields(fs, cs, UpdatedMemory(fs, cs, m, p, vs, k, w), p);
    forall j: nat ensures j in Unions(fs, |fs|) <==> j < |fs| && fs[j].isUnion { UnionsAre(fs, |fs|, j); }
    TakenOver(vs, us, Unions(fs, |fs|));
    assert TakeOver(vs, us, Unions(fs, |fs|)).value == UpdateUnion(fs, cs, m, p, vs, k, w);
  }
}
