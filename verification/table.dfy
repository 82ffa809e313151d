/** The `products` table as a sequence of rows in storage order, and the
    abstract effect of each SQL statement the handlers issue against it. */
module Table {
  import opened Wrappers
  import opened Products

  /** `id` is the primary key: no two rows share one. */
  predicate DistinctIds(t: seq<Product>)
  {
    forall i, j :: 0 <= i < j < |t| ==> t[i].id != t[j].id
  }

  /** The table as the handlers keep it: distinct ids, and no row with an
      empty field (POST refuses such rows and PUT never empties a field). */
  predicate WellFormed(t: seq<Product>)
  {
    DistinctIds(t) && forall i :: 0 <= i < |t| ==> Complete(t[i])
  }

  predicate HasId(t: seq<Product>, id: string)
  {
    exists i :: 0 <= i < |t| && t[i].id == id
  }

  /** An id is in a non-empty table iff it is the first row's or in the rest. */
  lemma HasIdCons(t: seq<Product>, id: string)
    requires t != []
    ensures HasId(t, id) <==> t[0].id == id || HasId(t[1..], id)
  {
  }

  /** `SELECT * FROM products WHERE id = $1` read through `QueryRow`: the
      first row with that id (see LookupFirst), or none. */
  function Lookup(t: seq<Product>, id: string): (r: Option<Product>)
    ensures r.Some? <==> HasId(t, id)
    ensures r.Some? ==> r.value.id == id && r.value in t
  {
    if t == [] then None
    else if t[0].id == id then Some(t[0])
    else
      HasIdCons(t, id);
      Lookup(t[1..], id)
  }

  /** Row k is the first row that carries `id`. */
  predicate FirstWith(t: seq<Product>, id: string, k: nat)
  {
    k < |t| && t[k].id == id && forall j :: 0 <= j < k ==> t[j].id != id
  }

  /** Whatever the table, a lookup that finds something finds the first row
      with the id, in storage order. */
  lemma {:induction false} LookupFirst(t: seq<Product>, id: string)
    requires HasId(t, id)
    ensures exists k: nat :: FirstWith(t, id, k) && Lookup(t, id) == Some(t[k])
  {
    if t[0].id == id {
      assert FirstWith(t, id, 0);
    } else {
      var rest := t[1..];
      HasIdCons(t, id);
      assert Lookup(t, id) == Lookup(rest, id);
      LookupFirst(rest, id);
      var k: nat :| FirstWith(rest, id, k) && Lookup(rest, id) == Some(rest[k]);
      assert t[k + 1] == rest[k];
      assert forall j :: 1 <= j < k + 1 ==> t[j] == rest[j - 1];
      assert FirstWith(t, id, k + 1);
    }
  }

  /** With distinct ids, looking up the id of any row finds that row. */
  lemma LookupAt(t: seq<Product>, k: nat)
    requires DistinctIds(t) && k < |t|
    ensures Lookup(t, t[k].id) == Some(t[k])
  {
  }

  /** `INSERT INTO products ...`: the row is stored after the existing ones.
      Where a new row lands is an abstraction; the statement has no ORDER BY. */
  function Insert(t: seq<Product>, p: Product): (r: seq<Product>)
    ensures |r| == |t| + 1 && r[..|t|] == t && r[|t|] == p
  {
    t + [p]
  }

  /** Inserting a row under a fresh id keeps the ids distinct. */
  lemma InsertDistinct(t: seq<Product>, p: Product)
    requires DistinctIds(t) && !HasId(t, p.id)
    ensures DistinctIds(Insert(t, p))
  {
  }

  /** After an insert under a fresh id, that id finds the new row and every
      other id finds what it found before. */
  lemma {:induction false} LookupAfterInsert(t: seq<Product>, p: Product, id: string)
    requires !HasId(t, p.id)
    ensures Lookup(Insert(t, p), id) == if id == p.id then Some(p) else Lookup(t, id)
  {
    if t == [] {
      assert Insert(t, p) == [p];
    } else {
      assert Insert(t, p)[1..] == Insert(t[1..], p);
      HasIdCons(t, p.id);
      LookupAfterInsert(t[1..], p, id);
    }
  }

  /** `DELETE FROM products WHERE id = $1`: every row with that id goes,
      the others stay in order. */
  function Remove(t: seq<Product>, id: string): (r: seq<Product>)
    ensures |r| <= |t|
    ensures !HasId(r, id)
  {
    if t == [] then []
    else if t[0].id == id then Remove(t[1..], id)
    else [t[0]] + Remove(t[1..], id)
  }

  /** A delete keeps exactly the rows whose id differs. */
  lemma {:induction false} RemoveKeeps(t: seq<Product>, id: string, p: Product)
    ensures p in Remove(t, id) <==> p in t && p.id != id
  {
    if t != [] {
      RemoveKeeps(t[1..], id, p);
      assert t == [t[0]] + t[1..];
    }
  }

  /** Deleting an absent id leaves the table as it was. */
  lemma {:induction false} RemoveAbsent(t: seq<Product>, id: string)
    requires !HasId(t, id)
    ensures Remove(t, id) == t
  {
    if t != [] {
      HasIdCons(t, id);
      RemoveAbsent(t[1..], id);
      assert t == [t[0]] + t[1..];
    }
  }

  /** The rows after the first keep distinct ids, none of them the first's. */
  lemma TailDistinct(t: seq<Product>)
    requires DistinctIds(t) && t != []
    ensures DistinctIds(t[1..]) && !HasId(t[1..], t[0].id)
  {
  }

  /** With distinct ids, deleting the id of row k removes exactly that row
      and keeps all other rows in their order. */
  lemma {:induction false} RemoveAt(t: seq<Product>, k: nat)
    requires DistinctIds(t) && k < |t|
    ensures Remove(t, t[k].id) == t[..k] + t[k + 1..]
  {
    var id := t[k].id;
    var rest := t[1..];
    TailDistinct(t);
    if k == 0 {
      RemoveAbsent(rest, id);
    } else {
      assert t[0].id != id;
      assert rest[k - 1] == t[k];
      RemoveAt(rest, k - 1);
      assert Remove(t, id) == [t[0]] + Remove(rest, id);
      assert rest[..k - 1] == t[1..k];
      assert rest[k..] == t[k + 1..];
      assert t[..k] == [t[0]] + t[1..k];
    }
  }

  /** The rows after the first of a well-formed table form one too. */
  lemma TailWellFormed(t: seq<Product>)
    requires WellFormed(t) && t != []
    ensures WellFormed(t[1..]) && !HasId(t[1..], t[0].id)
  {
  }

  /** Putting a complete row with a fresh id in front keeps a table well-formed. */
  lemma ConsWellFormed(p: Product, t: seq<Product>)
    requires WellFormed(t) && Complete(p) && !HasId(t, p.id)
    ensures WellFormed([p] + t)
  {
  }

  /** Removing rows from a well-formed table leaves it well-formed. */
  lemma {:induction false} RemoveWellFormed(t: seq<Product>, id: string)
    requires WellFormed(t)
    ensures WellFormed(Remove(t, id))
  {
    if t != [] {
      var rest := t[1..];
      TailWellFormed(t);
      RemoveWellFormed(rest, id);
      if t[0].id != id {
        var tail := Remove(rest, id);
        assert !HasId(tail, t[0].id) by {
          forall j | 0 <= j < |tail| ensures tail[j].id != t[0].id {
            RemoveKeeps(rest, id, tail[j]);
          }
        }
        ConsWellFormed(t[0], tail);
      }
    }
  }

  /** After a delete, the deleted id finds nothing and every other id finds
      what it found before. */
  lemma {:induction false} LookupAfterRemove(t: seq<Product>, id: string, other: string)
    ensures Lookup(Remove(t, id), other) == if other == id then None else Lookup(t, other)
  {
    if t != [] {
      LookupAfterRemove(t[1..], id, other);
      if t[0].id != id {
        assert ([t[0]] + Remove(t[1..], id))[1..] == Remove(t[1..], id);
      }
    }
  }

  /** `UPDATE products SET ... WHERE id = $4`: every row with that id becomes
      `p`; every other row, and the order, stay. */
  function Replace(t: seq<Product>, id: string, p: Product): (r: seq<Product>)
    ensures |r| == |t|
    ensures forall i :: 0 <= i < |t| && t[i].id == id ==> r[i] == p
    ensures forall i :: 0 <= i < |t| && t[i].id != id ==> r[i] == t[i]
  {
    if t == [] then []
    else [if t[0].id == id then p else t[0]] + Replace(t[1..], id, p)
  }

  /** Rewriting the rows of an id with a complete record that keeps that id
      leaves a well-formed table well-formed. */
  lemma ReplaceWellFormed(t: seq<Product>, id: string, p: Product)
    requires WellFormed(t) && p.id == id && Complete(p)
    ensures WellFormed(Replace(t, id, p))
  {
  }

  /** After an update of a present id, that id finds the new record and every
      other id finds what it found before. */
  lemma {:induction false} LookupAfterReplace(t: seq<Product>, id: string, p: Product, other: string)
    requires p.id == id
    ensures Lookup(Replace(t, id, p), other) ==
            if other == id && HasId(t, id) then Some(p) else Lookup(t, other)
  {
    if t != [] {
      LookupAfterReplace(t[1..], id, p, other);
      assert Replace(t, id, p)[1..] == Replace(t[1..], id, p);
      HasIdCons(t, id);
    }
  }

  function Min(a: int, b: int): int { if a <= b then a else b }

  /** `SELECT ... LIMIT $1 OFFSET $2`: skip `offset` rows, then at most
      `limit` rows in storage order. */
  function Window(t: seq<Product>, offset: nat, limit: nat): (r: seq<Product>)
    ensures |r| == if offset < |t| then Min(limit, |t| - offset) else 0
    ensures forall i :: 0 <= i < |r| ==> r[i] == t[offset + i]
  {
    if offset >= |t| then [] else t[offset..Min(offset + limit, |t|)]
  }
}
