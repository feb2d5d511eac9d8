/**
 * The symbol table `lenv`: a flat, ordered list of (name, value) slots.
 * `lenv_get` returns a copy of the value in the first slot with the name, or
 * the unbound-symbol error; `lenv_put` overwrites that slot in place, or
 * appends a new slot at the end. Copies are the identity on immutable values.
 */
module Environment {
  import opened Options
  import opened Values

  datatype Binding = Binding(name: string, val: Value)

  type Env = seq<Binding>

  predicate Bound(e: Env, k: string)
  {
    exists i :: 0 <= i < |e| && e[i].name == k
  }

  /** No name occupies two slots. */
  predicate UniqueNames(e: Env)
  {
    forall i, j :: 0 <= i < j < |e| ==> e[i].name != e[j].name
  }

  /** Every bound value is a function, as after registering the builtins. */
  predicate FunctionsOnly(e: Env)
  {
    forall i :: 0 <= i < |e| ==> e[i].val.Fun?
  }

  /** The slot the lookup loop stops at: the first one holding the name. */
  function IndexOf(e: Env, k: string): (r: Option<nat>)
    ensures r.None? <==> !Bound(e, k)
    ensures r.Some? ==> r.value < |e| && e[r.value].name == k
    ensures r.Some? ==> forall j :: 0 <= j < r.value ==> e[j].name != k
  {
    if |e| == 0 then None
    else if e[0].name == k then Some(0)
    else match IndexOf(e[1..], k)
      case Some(j) => Some(j + 1)
      case None => None
  }

  /** `lenv_get`. */
  function Get(e: Env, k: string): (r: Value)
    ensures !Bound(e, k) ==> r == Err(UnboundSymbol)
    ensures Bound(e, k) ==> exists i :: 0 <= i < |e| && e[i].name == k && r == e[i].val
    ensures UniqueNames(e) ==> forall i :: 0 <= i < |e| && e[i].name == k ==> r == e[i].val
  {
    match IndexOf(e, k)
    case Some(i) => e[i].val
    case None => Err(UnboundSymbol)
  }

  /** `lenv_put`. */
  function Put(e: Env, k: string, v: Value): (r: Env)
    ensures Bound(e, k) ==> |r| == |e|
    ensures Bound(e, k) ==> exists i :: 0 <= i < |e| && e[i].name == k && r == e[i := Binding(k, v)]
    ensures !Bound(e, k) ==> |r| == |e| + 1 && r[..|e|] == e && r[|e|] == Binding(k, v)
  {
    match IndexOf(e, k)
    case Some(i) => e[i := Binding(k, v)]
    case None => e + [Binding(k, v)]
  }

  /** Tables with the same names in the same slots stop the lookup at the same slot. */
  lemma IndexOfSameNames(e: Env, r: Env, k: string)
    requires |e| == |r| && forall j :: 0 <= j < |e| ==> e[j].name == r[j].name
    ensures IndexOf(e, k) == IndexOf(r, k)
  {
    if Bound(e, k) {
      var i := IndexOf(e, k).value;
      var i' := IndexOf(r, k).value;
      assert !(i < i') && !(i' < i);
    } else {
      assert !Bound(r, k);
    }
  }

  /** After binding k to v, looking k up yields v. */
  lemma PutGet(e: Env, k: string, v: Value)
    ensures Get(Put(e, k, v), k) == v
  {
    var r := Put(e, k, v);
    match IndexOf(e, k)
    case Some(i) =>
      assert r == e[i := Binding(k, v)];
      IndexOfSameNames(e, r, k);
    case None =>
      assert r == e + [Binding(k, v)];
      assert IndexOf(r, k) == Some(|e|);
  }

  /** Binding k leaves the lookup of every other name as it was. */
  lemma PutOther(e: Env, k: string, v: Value, k': string)
    requires k' != k
    ensures Get(Put(e, k, v), k') == Get(e, k')
  {
    var r := Put(e, k, v);
    assert forall j :: 0 <= j < |e| && e[j].name == k' ==> r[j] == e[j];
    match IndexOf(e, k)
    case Some(i) =>
      assert r == e[i := Binding(k, v)];
      IndexOfSameNames(e, r, k');
    case None =>
      assert r == e + [Binding(k, v)];
      if Bound(e, k') {
        var i := IndexOf(e, k').value;
        assert IndexOf(r, k') == Some(i);
      } else {
        assert !Bound(r, k');
      }
  }

  /** The table stays free of duplicate names. */
  lemma PutUnique(e: Env, k: string, v: Value)
    requires UniqueNames(e)
    ensures UniqueNames(Put(e, k, v))
  {
  }

  /** Which names are bound after a put: the old ones and k. */
  lemma PutBound(e: Env, k: string, v: Value, k': string)
    ensures Bound(Put(e, k, v), k') <==> Bound(e, k') || k' == k
  {
    var r := Put(e, k, v);
    if Bound(e, k') {
      var i :| 0 <= i < |e| && e[i].name == k';
      assert r[i].name == k';
    }
    if k' == k {
      if Bound(e, k) {
        var i :| 0 <= i < |e| && e[i].name == k && r == e[i := Binding(k, v)];
        assert r[i].name == k;
      } else {
        assert r[|e|].name == k;
      }
    }
  }

  /** The fifteen builtins in the order `lenv_add_builtins` registers them. */
  const Registrations: seq<Builtin> := [
    List, Head, Tail, Eval, Join, Len, Init,
    Arith(Add), Arith(Sub), Arith(Mul), Arith(Div), Arith(Min), Arith(Max), Arith(Mod), Arith(Pow)]

  /** A character the `symbol` rule of the grammar accepts: a letter, a digit or one of the listed signs. */
  predicate IsSymbolChar(c: char)
  {
    ('a' <= c <= 'z') || ('A' <= c <= 'Z') || ('0' <= c <= '9') || c in "_+-*/\\=<>!%^&"
  }

  /**
   * The symbol each builtin is registered under. Every name can be typed at
   * the prompt: it lexes as a symbol and, not starting with a digit or a
   * minus sign followed by one, never as a number.
   */
  function BuiltinName(b: Builtin): (r: string)
    ensures |r| > 0 && forall i :: 0 <= i < |r| ==> IsSymbolChar(r[i])
    ensures !('0' <= r[0] <= '9') && (r[0] == '-' ==> |r| == 1)
  {
    match b
    case List => "list"
    case Head => "head"
    case Tail => "tail"
    case Eval => "eval"
    case Join => "join"
    case Len => "len"
    case Init => "init"
    case Arith(op) =>
      match op
      case Add => "+"
      case Sub => "-"
      case Mul => "*"
      case Div => "/"
      case Min => "min"
      case Max => "max"
      case Mod => "%"
      case Pow => "^"
  }

  /** One `lenv_add_builtin` call per element, in order. */
  function PutAll(e: Env, bs: seq<Builtin>): (r: Env)
    ensures FunctionsOnly(e) ==> FunctionsOnly(r)
    decreases |bs|
  {
    if |bs| == 0 then e else PutAll(Put(e, BuiltinName(bs[0]), Fun(bs[0])), bs[1..])
  }

  /** `lenv_add_builtins`: afterwards every builtin name is bound to its builtin. */
  function AddBuiltins(e: Env): (r: Env)
    ensures forall b: Builtin :: Get(r, BuiltinName(b)) == Fun(b)
    ensures FunctionsOnly(e) ==> FunctionsOnly(r)
  {
    var r := PutAll(e, Registrations);
    assert forall b: Builtin :: Get(r, BuiltinName(b)) == Fun(b) by {
      forall b: Builtin
        ensures Get(r, BuiltinName(b)) == Fun(b)
      {
        RegistrationsComplete(b);
        PutAllGet(e, Registrations, b);
      }
    }
    r
  }

  /**
   * The environment `main` starts from, `lenv_new` then `lenv_add_builtins`:
   * every builtin name bound to its builtin (InitialEnvContents: and no other).
   */
  function InitialEnv(): (r: Env)
    ensures FunctionsOnly(r)
  {
    AddBuiltins([])
  }

  lemma BuiltinNameInjective(b1: Builtin, b2: Builtin)
    requires BuiltinName(b1) == BuiltinName(b2)
    ensures b1 == b2
  {
    var n := BuiltinName(b1);
    assert n[0] == BuiltinName(b2)[0];
    if |n| > 1 {
      assert n[1] == BuiltinName(b2)[1];
    }
  }

  lemma RegistrationsComplete(b: Builtin)
    ensures b in Registrations
  {
    var i := match b
      case List => 0
      case Head => 1
      case Tail => 2
      case Eval => 3
      case Join => 4
      case Len => 5
      case Init => 6
      case Arith(op) =>
        match op
        case Add => 7
        case Sub => 8
        case Mul => 9
        case Div => 10
        case Min => 11
        case Max => 12
        case Mod => 13
        case Pow => 14;
    assert Registrations[i] == b;
  }

  /** A name is bound after the puts iff it was before or some put wrote it. */
  lemma {:induction false} PutAllBound(e: Env, bs: seq<Builtin>, k: string)
    ensures Bound(PutAll(e, bs), k) <==> Bound(e, k) || exists b :: b in bs && BuiltinName(b) == k
    decreases |bs|
  {
    if |bs| > 0 {
      var e' := Put(e, BuiltinName(bs[0]), Fun(bs[0]));
      PutAllBound(e', bs[1..], k);
      PutBound(e, BuiltinName(bs[0]), Fun(bs[0]), k);
      assert forall b :: b in bs <==> b == bs[0] || b in bs[1..];
    }
  }

  /** Each builtin in the list ends up bound to itself, whatever was there before. */
  lemma {:induction false} PutAllGet(e: Env, bs: seq<Builtin>, b: Builtin)
    requires b in bs
    ensures Get(PutAll(e, bs), BuiltinName(b)) == Fun(b)
    decreases |bs|
  {
    var e' := Put(e, BuiltinName(bs[0]), Fun(bs[0]));
    assert PutAll(e, bs) == PutAll(e', bs[1..]);
    if b in bs[1..] {
      PutAllGet(e', bs[1..], b);
    } else {
      assert b == bs[0];
      forall b' | b' in bs[1..]
        ensures BuiltinName(b') != BuiltinName(b)
      {
        if BuiltinName(b') == BuiltinName(b) { BuiltinNameInjective(b', b); }
      }
      PutGet(e, BuiltinName(b), Fun(b));
      PutAllKeeps(e', bs[1..], BuiltinName(b));
    }
  }

  /** Puts of other names leave a lookup untouched. */
  lemma {:induction false} PutAllKeeps(e: Env, bs: seq<Builtin>, k: string)
    requires forall b :: b in bs ==> BuiltinName(b) != k
    ensures Get(PutAll(e, bs), k) == Get(e, k)
    decreases |bs|
  {
    if |bs| > 0 {
      var e' := Put(e, BuiltinName(bs[0]), Fun(bs[0]));
      PutOther(e, BuiltinName(bs[0]), Fun(bs[0]), k);
      PutAllKeeps(e', bs[1..], k);
    }
  }

  /**
   * Registration binds every builtin to its name, in any environment.
   */
  lemma AddBuiltinsGet(e: Env, b: Builtin)
    ensures Get(AddBuiltins(e), BuiltinName(b)) == Fun(b)
  {
    RegistrationsComplete(b);
    PutAllGet(e, Registrations, b);
  }

  /**
   * The initial environment binds exactly the fifteen builtin names, each
   * to a function, and every lookup in it is a function or the unbound error.
   */
  lemma InitialEnvContents(k: string)
    ensures Bound(InitialEnv(), k) <==> exists b :: BuiltinName(b) == k
    ensures FunctionsOnly(InitialEnv())
    ensures Get(InitialEnv(), k).Fun? || Get(InitialEnv(), k) == Err(UnboundSymbol)
  {
    PutAllBound([], Registrations, k);
    assert !Bound([], k);
    if exists b :: BuiltinName(b) == k {
      var b :| BuiltinName(b) == k;
      RegistrationsComplete(b);
    }
    FunctionsOnlyGet(InitialEnv(), k);
  }

  /** In a table of functions, a lookup is a function or the unbound error. */
  lemma FunctionsOnlyGet(e: Env, k: string)
    requires FunctionsOnly(e)
    ensures Get(e, k).Fun? || Get(e, k) == Err(UnboundSymbol)
  {
  }
}
