/**
 What ALTER TABLE finds in a table hierarchy, src/open_pg_tde_event_capture.c:197-253.
 */
module EncryptionMix {
  import opened Bytes

  type Oid = nat

  datatype Kind = Plain | Encrypted

  /** A relation: its storage, if it has any, and the relations altered with it. */
  datatype Relation = Relation(storage: Option<Kind>, composite: bool, inheritors: seq<Oid>, typedTables: seq<Oid>)

  type Catalog = Oid -> Relation

  /** Tables of the type for a composite type, inheritance children for anything else. */
  function Children(cat: Catalog, oid: Oid): seq<Oid> {
    if cat(oid).composite then cat(oid).typedTables else cat(oid).inheritors
  }

  /** A hierarchy has no cycles: every child has a smaller rank than its parent. */
  ghost predicate Acyclic(cat: Catalog, rank: Oid -> nat) {
    forall oid: Oid, i: nat :: i < |Children(cat, oid)| ==> rank(Children(cat, oid)[i]) < rank(oid)
  }

  // ----- What is reachable

  ghost predicate IsPath(cat: Catalog, p: seq<Oid>) {
    p != [] && forall i :: 0 <= i < |p| - 1 ==> Next(p, i) in Children(cat, p[i])
  }

  function Next(p: seq<Oid>, i: nat): Oid
    requires i + 1 < |p|
  {
    p[i + 1]
  }

  ghost predicate Leads(cat: Catalog, p: seq<Oid>, oid: Oid, k: Kind) {
    IsPath(cat, p) && p[0] == oid && cat(p[|p| - 1]).storage == Some(k)
  }

  /** A relation with storage of this kind can be reached through children. */
  ghost predicate Reaches(cat: Catalog, oid: Oid, k: Kind) {
    exists p :: Leads(cat, p, oid, k)
  }

  ghost predicate SomeChildReaches(cat: Catalog, cs: seq<Oid>, k: Kind) {
    exists i :: 0 <= i < |cs| && Reaches(cat, cs[i], k)
  }

  lemma {:induction false} PathPrepend(cat: Catalog, oid: Oid, p: seq<Oid>)
    requires IsPath(cat, p) && p[0] in Children(cat, oid)
    ensures IsPath(cat, [oid] + p)
  {
  }

  lemma {:induction false} ReachesThroughChild(cat: Catalog, oid: Oid, i: nat, k: Kind)
    requires i < |Children(cat, oid)| && Reaches(cat, Children(cat, oid)[i], k)
    ensures Reaches(cat, oid, k)
  {
    var p :| Leads(cat, p, Children(cat, oid)[i], k);
    PathPrepend(cat, oid, p);
    assert Leads(cat, [oid] + p, oid, k);
  }

  /** Storage is reached at the relation itself or through one of its children. */
  lemma {:induction false} ReachesIff(cat: Catalog, oid: Oid, k: Kind)
    ensures Reaches(cat, oid, k) <==> cat(oid).storage == Some(k) || SomeChildReaches(cat, Children(cat, oid), k)
    ensures Reaches(cat, oid, k) <==>
      cat(oid).storage == Some(k) || SomeChildReaches(cat, if cat(oid).composite then cat(oid).typedTables else cat(oid).inheritors, k)
  {
    if cat(oid).storage == Some(k) {
      assert Leads(cat, [oid], oid, k);
    }
    if SomeChildReaches(cat, Children(cat, oid), k) {
      var i :| 0 <= i < |Children(cat, oid)| && Reaches(cat, Children(cat, oid)[i], k);
      ReachesThroughChild(cat, oid, i, k);
    }
    if Reaches(cat, oid, k) {
      var p :| Leads(cat, p, oid, k);
      if |p| > 1 {
        assert Next(p, 0) in Children(cat, p[0]);
        var q := p[1..];
        forall j | 0 <= j < |q| - 1 ensures Next(q, j) in Children(cat, q[j]) {
          assert Next(q, j) == Next(p, j + 1) && q[j] == p[j + 1];
        }
        assert Leads(cat, q, p[1], k);
        var i :| 0 <= i < |Children(cat, oid)| && Children(cat, oid)[i] == p[1];
        assert Reaches(cat, Children(cat, oid)[i], k);
      }
    }
  }

  // ----- The scan

  datatype Mix = Unknown | AllPlain | AllEncrypted | Mixed

  /** What a result says about the kinds found. */
  predicate Describes(m: Mix, encrypted: bool, plain: bool) {
    && (m == Mixed <==> encrypted && plain)
    && (m == Unknown <==> !encrypted && !plain)
    && (m == AllEncrypted <==> encrypted && !plain)
    && (m == AllPlain <==> !encrypted && plain)
  }

  lemma {:induction false} SeenOneMore(cat: Catalog, cs: seq<Oid>, i: nat, k: Kind)
    requires i < |cs|
    ensures SomeChildReaches(cat, cs[..i + 1], k) <==> SomeChildReaches(cat, cs[..i], k) || Reaches(cat, cs[i], k)
  {
  }

  lemma {:induction false} SeenSome(cat: Catalog, cs: seq<Oid>, i: nat, k: Kind)
    requires i <= |cs| && SomeChildReaches(cat, cs[..i], k)
    ensures SomeChildReaches(cat, cs, k)
  {
  }

  /** A kind is known so far: found at the relation itself or through the children already scanned. */
  ghost predicate Found(cat: Catalog, oid: Oid, i: nat, k: Kind)
    requires i <= |Children(cat, oid)|
  {
    cat(oid).storage == Some(k) || SomeChildReaches(cat, Children(cat, oid)[..i], k)
  }

  lemma {:induction false} FoundOneMore(cat: Catalog, oid: Oid, i: nat, k: Kind)
    requires i < |Children(cat, oid)|
    ensures Found(cat, oid, i + 1, k) <==> Found(cat, oid, i, k) || Reaches(cat, Children(cat, oid)[i], k)
    ensures Found(cat, oid, i + 1, k) ==> Reaches(cat, oid, k)
  {
    var cs := Children(cat, oid);
    SeenOneMore(cat, cs, i, k);
    ReachesIff(cat, oid, k);
    if SomeChildReaches(cat, cs[..i + 1], k) {
      SeenSome(cat, cs, i + 1, k);
    }
  }

  /** The result is exact for every hierarchy and child order, though the scan stops at the first mix. */
  method AlterTableMix(cat: Catalog, ghost rank: Oid -> nat, oid: Oid) returns (enc: Mix)
    requires Acyclic(cat, rank)
    ensures Describes(enc, Reaches(cat, oid, Encrypted), Reaches(cat, oid, Plain))
    decreases rank(oid)
  {
    enc := match cat(oid).storage case None => Unknown case Some(Plain) => AllPlain case Some(Encrypted) => AllEncrypted;
    var children := Children(cat, oid);
    assert children[..0] == [];
    var i := 0;
    while i < |children|
      invariant 0 <= i <= |children|
      invariant Describes(enc, Found(cat, oid, i, Encrypted), Found(cat, oid, i, Plain))
    {
      FoundOneMore(cat, oid, i, Encrypted);
      FoundOneMore(cat, oid, i, Plain);
      var child := AlterTableMix(cat, rank, children[i]);
      if child != Unknown {
        if enc == Unknown {
          enc := child;
        } else if enc != child {
          return Mixed;
        }
      }
      i := i + 1;
    }
    assert children[..i] == children;
    ReachesIff(cat, oid, Encrypted);
    ReachesIff(cat, oid, Plain);
  }
}
