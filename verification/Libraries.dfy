// A library maps "package/Name" to the parsed message of that name. The four
// recursions of code generation follow field types through it without a guard
// against cycles, so they are functions of acyclic libraries only.
module Libraries {
  import opened Messages

  type Library = map<string, ParsedMessage>

  ghost predicate Ranks(lib: Library, rank: map<string, nat>) {
    && lib.Keys <= rank.Keys
    && (forall k <- lib.Keys :: rank[k] < |lib|)
    && (forall k <- lib.Keys :: Below(lib, rank, lib[k].fields, rank[k]))
  }

  ghost predicate Below(lib: Library, rank: map<string, nat>, fields: seq<FieldInfo>, bound: nat)
    requires lib.Keys <= rank.Keys
  {
    forall f <- fields | FullTypeName(f) in lib :: rank[FullTypeName(f)] < bound
  }

  ghost predicate Acyclic(lib: Library) {
    exists rank :: Ranks(lib, rank)
  }

  ghost function SomeRank(lib: Library): (rank: map<string, nat>)
    requires Acyclic(lib)
    ensures Ranks(lib, rank)
  {
    var rank :| Ranks(lib, rank); rank
  }

  ghost function Rank(key: string, lib: Library): nat
    requires Acyclic(lib) && key in lib
  {
    SomeRank(lib)[key]
  }

  // One more than the highest rank that the fields refer to.
  ghost function Level(fields: seq<FieldInfo>, lib: Library): nat
    requires Acyclic(lib)
  {
    if fields == [] then 0
    else
      var key := FullTypeName(fields[0]);
      var here := if key in lib then Rank(key, lib) + 1 else 0;
      var rest := Level(fields[1..], lib);
      if here < rest then rest else here
  }

  lemma {:induction false} LevelAtMost(fields: seq<FieldInfo>, lib: Library, bound: nat)
    requires Acyclic(lib) && Below(lib, SomeRank(lib), fields, bound)
    ensures Level(fields, lib) <= bound
  {
    if fields != [] {
      LevelAtMost(fields[1..], lib, bound);
    }
  }

  // Recursing into a type that the fields refer to lowers the level.
  lemma LevelOfEntry(key: string, lib: Library)
    requires Acyclic(lib) && key in lib
    ensures Level(lib[key].fields, lib) <= Rank(key, lib)
  {
    LevelAtMost(lib[key].fields, lib, Rank(key, lib));
  }

  lemma {:induction false} LevelAbove(f: FieldInfo, fields: seq<FieldInfo>, lib: Library)
    requires Acyclic(lib) && f in fields && FullTypeName(f) in lib
    ensures Level(lib[FullTypeName(f)].fields, lib) <= Rank(FullTypeName(f), lib) < Level(fields, lib)
  {
    hide Acyclic, FullTypeName;
    LevelOfEntry(FullTypeName(f), lib);
    if f != fields[0] { LevelAbove(f, fields[1..], lib); }
  }

  // Every type that a message refers to and that the resolver waits for is present.
  predicate Ready(fields: seq<FieldInfo>, keys: set<string>) {
    forall f <- fields :: IsPrimitive(f.fieldType.fieldType) || FullTypeName(f) in keys
  }

  ghost predicate Closed(lib: Library) {
    forall k <- lib.Keys :: Ready(lib[k].fields, lib.Keys)
  }

  lemma TypeNamedAfterPrimitive(f: FieldInfo)
    ensures IsPrimitive(f.fieldType.fieldType) ==> NamedAfterPrimitive(FullTypeName(f))
  {
  }

  // A type that the fields refer to and that is in the enlarged library was there before.
  lemma ReferenceIsOld(fields: seq<FieldInfo>, f: FieldInfo, keys: set<string>, key: string)
    requires Ready(fields, keys) && f in fields && FullTypeName(f) in keys + {key}
    requires !NamedAfterPrimitive(key)
    ensures FullTypeName(f) in keys
  {
    hide IsPrimitive, FullTypeName, NamedAfterPrimitive;
    TypeNamedAfterPrimitive(f);
  }

  // Adding a message under a fresh name whose references are already there keeps the
  // library acyclic: the order of insertion is a rank.
  lemma InsertKeepsAcyclic(lib: Library, key: string, p: ParsedMessage)
    requires Acyclic(lib) && Closed(lib)
    requires key !in lib && !NamedAfterPrimitive(key) && Ready(p.fields, lib.Keys)
    ensures Acyclic(lib[key := p]) && Closed(lib[key := p])
  {
    hide IsPrimitive, FullTypeName, NamedAfterPrimitive, Ready;
    var lib' := lib[key := p];
    var rank := SomeRank(lib);
    var rank' := rank[key := |lib|];
    assert lib'.Keys == lib.Keys + {key};
    forall k <- lib'.Keys ensures Below(lib', rank', lib'[k].fields, rank'[k]) && Ready(lib'[k].fields, lib'.Keys) {
      assert Ready(lib'[k].fields, lib.Keys);
      ReadyWithMore(lib'[k].fields, lib.Keys, lib'.Keys);
      forall f <- lib'[k].fields | FullTypeName(f) in lib' ensures rank'[FullTypeName(f)] < rank'[k] {
        ReferenceIsOld(lib'[k].fields, f, lib.Keys, key);
        if k != key {
          assert Below(lib, rank, lib[k].fields, rank[k]);
        }
      }
    }
    assert Ranks(lib', rank');
  }

  lemma ReadyWithMore(fields: seq<FieldInfo>, keys: set<string>, more: set<string>)
    requires Ready(fields, keys) && keys <= more
    ensures Ready(fields, more)
  {
  }

  // A rank that is not bounded by the size of the library.
  ghost predicate Orders(lib: Library, rank: map<string, nat>) {
    lib.Keys <= rank.Keys && forall k <- lib.Keys :: Below(lib, rank, lib[k].fields, rank[k])
  }

  lemma {:induction false} SmallerSet<T>(a: set<T>, b: set<T>)
    requires a < b
    ensures |a| < |b|
  {
    var x :| x in b && x !in a;
    SmallerOrEqualSet(a, b - {x});
  }

  lemma {:induction false} SmallerOrEqualSet<T>(a: set<T>, b: set<T>)
    requires a <= b
    ensures |a| <= |b|
  {
    if a != {} {
      var x :| x in a;
      SmallerOrEqualSet(a - {x}, b - {x});
    }
  }

  // Any rank is enough: counting the entries below an entry gives one that is bounded.
  lemma OrderIsEnough(lib: Library, rank: map<string, nat>)
    requires Orders(lib, rank)
    ensures Acyclic(lib)
  {
    hide FullTypeName;
    var below := map k | k in lib :: set j | j in lib && rank[j] < rank[k];
    var counts: map<string, nat> := map k | k in lib :: |below[k]|;
    forall k <- lib.Keys ensures counts[k] < |lib| {
      assert k in lib.Keys && k !in below[k] && below[k] <= lib.Keys;
      SmallerSet(below[k], lib.Keys);
    }
    forall k <- lib.Keys ensures Below(lib, counts, lib[k].fields, counts[k]) {
      forall f <- lib[k].fields | FullTypeName(f) in lib ensures counts[FullTypeName(f)] < counts[k] {
        var t := FullTypeName(f);
        assert Below(lib, rank, lib[k].fields, rank[k]);
        assert t in below[k] && t !in below[t];
        SmallerSet(below[t], below[k]);
      }
    }
    assert Ranks(lib, counts);
  }
}
