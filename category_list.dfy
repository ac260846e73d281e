/** The category entity and the operations the category screen applies to its
    local copy of the server's list: replace by identity after an update,
    remove by identity after a delete, and append after a create. */
module CategoryList {

  /** One category as the server sends it. */
  datatype Category = Category(categoryID: int, categoryName: string, description: string)

  /** The identity a draft carries while the server has not stored it yet. */
  const NewId: int := 0

  /** A draft that has not been persisted: saving it takes the create path. */
  predicate IsNew(c: Category) {
    c.categoryID == NewId
  }

  /** Some entry of `s` has identity `id`. */
  predicate HasId(s: seq<Category>, id: int) {
    exists i :: 0 <= i < |s| && s[i].categoryID == id
  }

  /** The store's invariant: no two entries share a non-zero identity. */
  predicate UniqueIds(s: seq<Category>) {
    forall i, j :: 0 <= i < |s| && 0 <= j < |s| && i != j && s[i].categoryID != NewId ==>
      s[i].categoryID != s[j].categoryID
  }

  /** The list after an update has been accepted: every entry whose identity is
      the draft's becomes the draft; the others keep their place. */
  function ReplaceById(s: seq<Category>, draft: Category): (r: seq<Category>)
    ensures |r| == |s|
    ensures forall i :: 0 <= i < |s| && s[i].categoryID == draft.categoryID ==> r[i] == draft
    ensures forall i :: 0 <= i < |s| && s[i].categoryID != draft.categoryID ==> r[i] == s[i]
  {
    if s == [] then []
    else [if s[0].categoryID == draft.categoryID then draft else s[0]] + ReplaceById(s[1..], draft)
  }

  /** The list after a delete has been accepted: the entries whose identity is
      `id` are dropped, the others keep their relative order. */
  function RemoveById(s: seq<Category>, id: int): (r: seq<Category>)
    ensures |r| <= |s|
    ensures forall c :: c in r <==> c in s && c.categoryID != id
  {
    if s == [] then []
    else (if s[0].categoryID == id then [] else [s[0]]) + RemoveById(s[1..], id)
  }

  /** Replacing keeps every identity where it was, so the store's invariant survives an update. */
  lemma ReplaceByIdKeepsUnique(s: seq<Category>, draft: Category)
    requires UniqueIds(s)
    ensures UniqueIds(ReplaceById(s, draft))
    ensures forall i :: 0 <= i < |s| ==> ReplaceById(s, draft)[i].categoryID == s[i].categoryID
  {
  }

  /** When identities are unique, an update of a persisted entry at index `k`
      changes that one entry and nothing else. */
  lemma ReplaceByIdAt(s: seq<Category>, draft: Category, k: int)
    requires UniqueIds(s)
    requires 0 <= k < |s| && s[k].categoryID == draft.categoryID && !IsNew(draft)
    ensures ReplaceById(s, draft) == s[k := draft]
  {
  }

  /** A list with no entry of identity `id` is exactly what removal leaves unchanged. */
  lemma {:induction false} RemoveByIdUnchanged(s: seq<Category>, id: int)
    ensures RemoveById(s, id) == s <==> !HasId(s, id)
  {
    if s == [] {
    } else {
      RemoveByIdUnchanged(s[1..], id);
      if s[0].categoryID == id {
        assert |RemoveById(s, id)| <= |s[1..]| < |s|;
      } else {
        assert RemoveById(s, id) == [s[0]] + RemoveById(s[1..], id);
        assert HasId(s, id) <==> HasId(s[1..], id) by {
          if HasId(s, id) {
            var i :| 0 <= i < |s| && s[i].categoryID == id;
            assert s[1..][i - 1].categoryID == id;
          }
          if HasId(s[1..], id) {
            var i :| 0 <= i < |s[1..]| && s[1..][i].categoryID == id;
            assert s[i + 1].categoryID == id;
          }
        }
      }
    }
  }

  /** Removal works entry by entry: it commutes with concatenation, which is
      what keeps the surviving entries in their relative order. */
  lemma {:induction false} RemoveByIdConcat(a: seq<Category>, b: seq<Category>, id: int)
    ensures RemoveById(a + b, id) == RemoveById(a, id) + RemoveById(b, id)
  {
    if a == [] {
      assert a + b == b;
    } else {
      assert (a + b)[1..] == a[1..] + b;
      RemoveByIdConcat(a[1..], b, id);
    }
  }

  /** A list that starts with `c` has unique identities exactly when its tail
      does and `c` is new or its identity does not occur in the tail. */
  lemma UniqueIdsCons(c: Category, t: seq<Category>)
    ensures UniqueIds([c] + t) <==> UniqueIds(t) && (IsNew(c) || !HasId(t, c.categoryID))
  {
    var s := [c] + t;
    if UniqueIds(s) {
      forall i, j | 0 <= i < |t| && 0 <= j < |t| && i != j && t[i].categoryID != NewId
        ensures t[i].categoryID != t[j].categoryID
      {
        assert s[i + 1] == t[i] && s[j + 1] == t[j];
      }
      if !IsNew(c) {
        forall j | 0 <= j < |t| ensures t[j].categoryID != c.categoryID {
          assert s[0] == c && s[j + 1] == t[j];
        }
      }
    }
    if UniqueIds(t) && (IsNew(c) || !HasId(t, c.categoryID)) {
      forall i, j | 0 <= i < |s| && 0 <= j < |s| && i != j && s[i].categoryID != NewId
        ensures s[i].categoryID != s[j].categoryID
      {
        if i == 0 {
          assert s[j] == t[j - 1];
        } else if j == 0 {
          assert s[i] == t[i - 1];
        } else {
          assert s[i] == t[i - 1] && s[j] == t[j - 1];
        }
      }
    }
  }

  /** Removal keeps the store's invariant. */
  lemma {:induction false} RemoveByIdKeepsUnique(s: seq<Category>, id: int)
    requires UniqueIds(s)
    ensures UniqueIds(RemoveById(s, id))
  {
    if s != [] {
      assert s == [s[0]] + s[1..];
      UniqueIdsCons(s[0], s[1..]);
      RemoveByIdKeepsUnique(s[1..], id);
      var rest := RemoveById(s[1..], id);
      if s[0].categoryID != id {
        UniqueIdsCons(s[0], rest);
        if !IsNew(s[0]) {
          forall j | 0 <= j < |rest| ensures rest[j].categoryID != s[0].categoryID {
            assert rest[j] in s[1..];
            var k :| 0 <= k < |s[1..]| && s[1..][k] == rest[j];
          }
        }
      }
    }
  }

  /** Removing the identity of the one matching entry between two parts that
      do not carry it leaves just those two parts. */
  lemma RemoveByIdDropsOne(pre: seq<Category>, x: Category, post: seq<Category>, id: int)
    requires !HasId(pre, id) && !HasId(post, id) && x.categoryID == id
    ensures RemoveById(pre + [x] + post, id) == pre + post
  {
    RemoveByIdUnchanged(pre, id);
    RemoveByIdUnchanged(post, id);
    calc {
      RemoveById(pre + [x] + post, id);
    == { RemoveByIdConcat(pre + [x], post, id); }
      RemoveById(pre + [x], id) + RemoveById(post, id);
    == { RemoveByIdConcat(pre, [x], id); }
      RemoveById(pre, id) + RemoveById([x], id) + RemoveById(post, id);
    == { assert RemoveById([x], id) == []; }
      pre + [] + post;
    }
    assert pre + [] == pre;
  }

  /** When identities are unique, removing a persisted identity found at index
      `k` drops exactly that entry, so the list shrinks by one. */
  lemma RemoveByIdAt(s: seq<Category>, id: int, k: int)
    requires UniqueIds(s)
    requires 0 <= k < |s| && s[k].categoryID == id && id != NewId
    ensures RemoveById(s, id) == s[..k] + s[k + 1..]
    ensures |RemoveById(s, id)| == |s| - 1
  {
    var pre, post := s[..k], s[k + 1..];
    assert s == pre + [s[k]] + post;
    assert !HasId(pre, id) by {
      forall i | 0 <= i < |pre| ensures pre[i].categoryID != id {
        assert pre[i] == s[i];
      }
    }
    assert !HasId(post, id) by {
      forall i | 0 <= i < |post| ensures post[i].categoryID != id {
        assert post[i] == s[k + 1 + i];
      }
    }
    RemoveByIdDropsOne(pre, s[k], post, id);
  }

  /** Appending keeps the store's invariant exactly when the new entry is new
      or carries an identity not yet in the list. */
  lemma AppendKeepsUnique(s: seq<Category>, c: Category)
    ensures UniqueIds(s + [c]) <==> UniqueIds(s) && (IsNew(c) || !HasId(s, c.categoryID))
  {
    var t := s + [c];
    if UniqueIds(t) {
      forall i, j | 0 <= i < |s| && 0 <= j < |s| && i != j && s[i].categoryID != NewId
        ensures s[i].categoryID != s[j].categoryID
      {
        assert t[i] == s[i] && t[j] == s[j];
      }
      if !IsNew(c) {
        forall j | 0 <= j < |s| ensures s[j].categoryID != c.categoryID {
          assert t[|s|] == c && t[j] == s[j];
        }
      }
    }
    if UniqueIds(s) && (IsNew(c) || !HasId(s, c.categoryID)) {
      forall i, j | 0 <= i < |t| && 0 <= j < |t| && i != j && t[i].categoryID != NewId
        ensures t[i].categoryID != t[j].categoryID
      {
        if i == |s| {
          assert t[j] == s[j];
        } else if j == |s| {
          assert t[i] == s[i];
        } else {
          assert t[i] == s[i] && t[j] == s[j];
        }
      }
    }
  }
}
