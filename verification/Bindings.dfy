// The struct compiler of types/th/src/bindings.dsl.h: the field table that its macros fill, the emitter
// hsc_stoptype, and what is true of the Storable instance that comes out.
module Bindings {
  import opened Storable
  import opened Structs
  import opened Marshal
  import Markup

  const CAPACITY: nat := 500
  const TEXT_CAPACITY: nat := 1000

  // A type text that bc_typemarkup accepts.
  predicate Marked(ty: string) { Markup.IsCString(ty) && Markup.Rewrite(ty).Some? }

  function MarkUp(ty: string): string
    requires Marked(ty)
  {
    Markup.Rewrite(ty).value
  }

  predicate AllMarked(fs: seq<Field>) { forall i | 0 <= i < |fs| :: Marked(fs[i].ty) }

  // The fields with their types as the generated code writes them.
  function MarkedFields(fs: seq<Field>): (r: seq<Field>)
    requires AllMarked(fs)
    ensures |r| == |fs| && forall i | 0 <= i < |fs| :: r[i] == fs[i].(ty := MarkUp(fs[i].ty))
  {
    seq(|fs|, i requires 0 <= i < |fs| => fs[i].(ty := MarkUp(fs[i].ty)))
  }

  // static struct bc_fielddata
  class FieldTable {
    var n: nat
    const isUnion: array<bool>
    const isFam: array<bool>
    const arraySize: array<nat>
    const offset: array<nat>
    const fname: array<string>
    const ftype: array<string>

    ghost function Columns(): set<object> {
      {isUnion as object, isFam, arraySize, offset, fname, ftype}
    }

    ghost predicate Valid()
      reads this, Columns()
    {
      && n <= CAPACITY == isUnion.Length == isFam.Length == arraySize.Length == offset.Length
      && CAPACITY == fname.Length == ftype.Length
      && isUnion != isFam && arraySize != offset && fname != ftype
      && forall i | 0 <= i < n :: isFam[i] ==> !isUnion[i] && arraySize[i] == 0
    }

    ghost function FieldAt(i: nat): Field
      requires Valid() && i < CAPACITY
      reads this, Columns()
    {
      Field(fname[i], ftype[i], offset[i], arraySize[i], isUnion[i], isFam[i])
    }

    // The fields declared so far.
    ghost function Fields(): (fs: seq<Field>)
      requires Valid()
      reads this, Columns()
      ensures Produced(fs) && |fs| == n && forall i | 0 <= i < n :: fs[i] == FieldAt(i)
    {
      seq(n, i requires Valid() && 0 <= i < n reads this, Columns() => FieldAt(i))
    }

    constructor ()
      ensures Valid() && Fields() == []
      ensures fresh(Columns())
    {
      n := 0;
      isUnion, isFam := new bool[CAPACITY](_ => false), new bool[CAPACITY](_ => false);
      arraySize, offset := new nat[CAPACITY](_ => 0), new nat[CAPACITY](_ => 0);
      fname, ftype := new string[CAPACITY](_ => ""), new string[CAPACITY](_ => "");
    }

    // hsc_starttype
    method StartType()
      requires Valid()
      modifies this
      ensures Valid() && Fields() == []
    {
      n := 0;
    }

    predicate HasRoom(name: string, ty: string)
      reads this
    {
      n < CAPACITY && |name| < TEXT_CAPACITY && |ty| < TEXT_CAPACITY
    }

    // The sizes of the C arrays.
    lemma RoomMeans(name: string, ty: string)
      ensures HasRoom(name, ty) <==> n < 500 && |name| < 1000 && |ty| < 1000
    {
    }

    // bc_basicfield; off is the offset of the member in the C struct.
    method BasicField(name: string, ty: string, u: bool, f: bool, off: nat) returns (index: nat)
      requires Valid() && HasRoom(name, ty) && !(u && f)
      modifies this, Columns()
      ensures Valid() && index == old(n) == n - 1 && isFam[index] == f
      ensures Fields() == old(Fields()) + [Field(name, ty, off, 0, u, f)]
    {
      index := n;
      n := n + 1;
      offset[index] := off;
      arraySize[index] := 0;
      isUnion[index] := u;
      isFam[index] := f;
      fname[index] := name;
      ftype[index] := ty;
      assert forall i | 0 <= i < index :: FieldAt(i) == old(FieldAt(i));
    }

    // hsc_field
    method AddField(name: string, ty: string, off: nat)
      requires Valid() && HasRoom(name, ty)
      modifies this, Columns()
      ensures Valid() && Fields() == old(Fields()) + [Field(name, ty, off, 0, false, false)]
    {
      var _ := BasicField(name, ty, false, false, off);
    }

    // hsc_union_field
    method AddUnionField(name: string, ty: string, off: nat)
      requires Valid() && HasRoom(name, ty)
      modifies this, Columns()
      ensures Valid() && Fields() == old(Fields()) + [Field(name, ty, off, 0, true, false)]
    {
      var _ := BasicField(name, ty, true, false, off);
    }

    // hsc_flexible_array_member
    method AddFlexibleArrayMember(name: string, ty: string, off: nat)
      requires Valid() && HasRoom(name, ty)
      modifies this, Columns()
      ensures Valid() && Fields() == old(Fields()) + [Field(name, ty, off, 0, false, true)]
    {
      var _ := BasicField(name, ty, false, true, off);
    }

    method SetArraySize(index: nat, bytes: nat)
      requires Valid() && index + 1 == n && !isFam[index]
      modifies arraySize
      ensures Valid() && Fields() == old(Fields()[..index]) + [old(Fields()[index]).(arraySize := bytes)]
    {
      arraySize[index] := bytes;
      assert forall i | 0 <= i < index :: FieldAt(i) == old(FieldAt(i));
    }

    // hsc_array_field; bytes is sizeof the member.
    method AddArrayField(name: string, ty: string, off: nat, bytes: nat)
      requires Valid() && HasRoom(name, ty)
      modifies this, Columns()
      ensures Valid() && Fields() == old(Fields()) + [Field(name, ty, off, bytes, false, false)]
    {
      var index := BasicField(name, ty, false, false, off);
      SetArraySize(index, bytes);
    }

    // hsc_union_array_field
    method AddUnionArrayField(name: string, ty: string, off: nat, bytes: nat)
      requires Valid() && HasRoom(name, ty)
      modifies this, Columns()
      ensures Valid() && Fields() == old(Fields()) + [Field(name, ty, off, bytes, true, false)]
    {
      var index := BasicField(name, ty, true, false, off);
      SetArraySize(index, bytes);
    }

    // ---- hsc_stoptype, part by part ----

    // The table holds the fields ms, with their types marked up.
    ghost predicate Holds(ms: seq<Field>)
      reads this, Columns()
    {
      Valid() && |ms| == n && forall i | 0 <= i < n ::
        Marked(ftype[i]) && ms[i] == Field(fname[i], MarkUp(ftype[i]), offset[i], arraySize[i], isUnion[i], isFam[i])
    }

    lemma HoldsItself()
      requires Valid() && AllMarked(Fields())
      ensures Holds(MarkedFields(Fields()))
    {
      var fs := Fields();
      forall i | 0 <= i < n ensures Marked(ftype[i]) && fs[i] == FieldAt(i) { assert Marked(fs[i].ty); }
    }

    method EmitDecl(ghost ms: seq<Field>) returns (decl: seq<DataField>)
      requires Holds(ms)
      ensures decl == Decls(ms)
    {
      decl := [];
      var i := 0;
      while i < n
        invariant i <= n && |decl| == i && Holds(ms)
        invariant forall k | 0 <= k < i :: decl[k] == DeclOf(ms[k])
      {
        var name, isList := fname[i], arraySize[i] > 0 || isFam[i];
        var ty := Markup.BcTypemarkup(ftype[i]);
        decl := decl + [DataField(name, isList, ty)];
        i := i + 1;
      }
    }

    method EmitPointers(ghost ms: seq<Field>) returns (pointers: seq<Pointer>)
      requires Holds(ms)
      ensures pointers == Pointers(ms)
    {
      pointers := [];
      var i := 0;
      while i < n
        invariant i <= n && |pointers| == i && Holds(ms)
        invariant forall k | 0 <= k < i :: pointers[k] == PointerOf(ms[k])
      {
        var off := offset[i];
        var ty := Markup.BcTypemarkup(ftype[i]);
        pointers := pointers + [Pointer(off, ty)];
        i := i + 1;
      }
    }

    // The record updates at the end of a setter.
    method EmitTaken(ghost ms: seq<Field>) returns (taken: seq<nat>)
      requires Holds(ms)
      ensures taken == Unions(ms, |ms|)
    {
      taken := [];
      var j := 0;
      while j < n
        invariant j <= n && taken == Unions(ms, j)
      {
        if isUnion[j] { taken := taken + [j]; }
        j := j + 1;
      }
    }

    method EmitSetter(ghost ms: seq<Field>, i: nat) returns (s: Setter)
      requires Holds(ms) && i < n
      ensures s == SetterOf(ms, i)
    {
      var size, off := arraySize[i], offset[i];
      var ty := Markup.BcTypemarkup(ftype[i]);
      var write;
      if size > 0 {
        var sizeTy := Markup.BcTypemarkup(ftype[i]);
        write := PokeTake(size, sizeTy, off, Vf);
      } else {
        write := Stmt.PokeByteOff(off, Vf);
      }
      var taken := EmitTaken(ms);
      s := Setter(i, size > 0, ty, write, taken);
    }

    method EmitSetters(ghost ms: seq<Field>) returns (ss: seq<Setter>)
      requires Holds(ms)
      ensures ss == Setters(ms, |ms|)
    {
      ss := [];
      var i := 0;
      while i < n
        invariant i <= n && Holds(ms) && ss == Setters(ms, i)
      {
        if isUnion[i] {
          var s := EmitSetter(ms, i);
          ss := ss + [s];
        }
        i := i + 1;
      }
    }

    method EmitBinds(ghost ms: seq<Field>) returns (bs: seq<Bind>)
      requires Holds(ms)
      ensures bs == Binds(ms)
    {
      bs := [];
      var i := 0;
      while i < n
        invariant i <= n && |bs| == i && Holds(ms)
        invariant forall k | 0 <= k < i :: bs[k] == Bind(V(k), RhsOf(ms[k]))
      {
        var size, off := arraySize[i], offset[i];
        var rhs;
        if isFam[i] {
          rhs := ReturnEmpty;
        } else if size > 0 {
          var ty := Markup.BcTypemarkup(ftype[i]);
          rhs := PeekElements(size, ty, off);
        } else {
          rhs := Rhs.PeekByteOff(off);
        }
        bs := bs + [Bind(V(i), rhs)];
        i := i + 1;
      }
    }

    // " v0 v1 ..", behind the constructor in peek and in poke
    method EmitVars() returns (vs: seq<Var>)
      ensures vs == Vars(n)
    {
      vs := [];
      var i := 0;
      while i < n
        invariant i <= n && vs == Vars(i)
      {
        vs := vs + [V(i)];
        i := i + 1;
      }
    }

    method EmitStmts(ghost ms: seq<Field>) returns (ss: seq<Stmt>)
      requires Holds(ms)
      ensures ss == Stmts(ms)
    {
      ss := [];
      var i := 0;
      while i < n
        invariant i <= n && |ss| == i && Holds(ms)
        invariant forall k | 0 <= k < i :: ss[k] == StmtOf(ms[k], V(k))
      {
        var size, off := arraySize[i], offset[i];
        var s;
        if isFam[i] {
          s := PokeAll(off, V(i));
        } else if size > 0 {
          var ty := Markup.BcTypemarkup(ftype[i]);
          s := PokeTake(size, ty, off, V(i));
        } else {
          s := Stmt.PokeByteOff(off, V(i));
        }
        ss := ss + [s];
        i := i + 1;
      }
    }

    // hsc_stoptype
    method StopType(typename: string, typesize: nat, typealign: nat) returns (inst: Instance)
      requires Valid() && AllMarked(Fields()) && Markup.IsCString(typename) && !Markup.AllBlank(typename)
      ensures inst == Compile("C'" + Markup.LastWord(typename), MarkedFields(Fields()), typesize, typealign)
      ensures Emitted(inst, MarkedFields(Fields()))
      ensures inst.con == "C'" + Markup.LastWord(typename) && inst.size == typesize && inst.alignment == typealign
      ensures |inst.decl| == |Fields()| && forall i | 0 <= i < |Fields()| ::
        var f := Fields()[i];
        inst.decl[i] == DataField(f.name, f.arraySize > 0 || f.isFam, MarkUp(f.ty))
    {
      ghost var fs := Fields();
      ghost var ms := MarkedFields(fs);
      HoldsItself();
      var con := Markup.BcConid(typename);
      assert con == "C'" + Markup.LastWord(typename);
      inst := Emit(ms, con, typesize, typealign);
      assert Fields() == fs;
    }

    method Emit(ghost ms: seq<Field>, con: string, typesize: nat, typealign: nat) returns (inst: Instance)
      requires Holds(ms)
      ensures inst == Compile(con, ms, typesize, typealign)
    {
      var decl := EmitDecl(ms);
      var pointers := EmitPointers(ms);
      var setters := EmitSetters(ms);
      var binds := EmitBinds(ms);
      var args := EmitVars();
      var params := EmitVars();
      var body := EmitStmts(ms);
      inst := Instance(con, decl, pointers, setters, typesize, typealign, binds, args, params, body);
    }
  }
}
