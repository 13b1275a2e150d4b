/**
 * The header multimap of requests and responses: a sequence of name/value fields whose
 * names are compared without regard to (ASCII) case, values of one name kept in the order
 * they were added.
 */
module Headers {

  datatype Header = Header(name: string, value: string)

  /** ASCII lower-casing of one character. */
  function Lower(c: char): char
  {
    if 'A' <= c <= 'Z' then (c as int + 32) as char else c
  }

  /** Two field names are the same name when they agree up to case. */
  predicate SameName(a: string, b: string)
  {
    |a| == |b| && forall i :: 0 <= i < |a| ==> Lower(a[i]) == Lower(b[i])
  }

  /** `name` is one of `names`, up to case (a case-insensitive set of names). */
  predicate InNames(name: string, names: seq<string>)
  {
    exists i :: 0 <= i < |names| && SameName(name, names[i])
  }

  /** Membership in a one-name set is sameness with that name. */
  lemma InSingleton(name: string, n: string)
    ensures InNames(name, [n]) <==> SameName(name, n)
  {
    assert [n][0] == n;
  }

  /** Membership in a one-name set, for every name at once. */
  lemma SingleNameSet(n: string)
    ensures forall name :: InNames(name, [n]) <==> SameName(name, n)
  {
    forall name
      ensures InNames(name, [n]) <==> SameName(name, n)
    {
      InSingleton(name, n);
    }
  }

  lemma SameNameTransitive(a: string, b: string, c: string)
    requires SameName(a, b) && SameName(b, c)
    ensures SameName(a, c)
  {
  }

  /** The headers left when every field whose name is in `names` is removed. */
  function RemoveAll(hs: seq<Header>, names: seq<string>): seq<Header>
  {
    if |hs| == 0 then []
    else (if InNames(hs[0].name, names) then [] else [hs[0]]) + RemoveAll(hs[1..], names)
  }

  /** Removal keeps exactly the fields whose name is not among those removed. */
  lemma {:induction false} RemoveAllMembers(hs: seq<Header>, names: seq<string>)
    ensures |RemoveAll(hs, names)| <= |hs|
    ensures forall h :: h in RemoveAll(hs, names) <==> h in hs && !InNames(h.name, names)
  {
    if |hs| > 0 {
      RemoveAllMembers(hs[1..], names);
      assert hs == [hs[0]] + hs[1..];
    }
  }

  /** The values of the fields called `name`, in order. */
  function Values(hs: seq<Header>, name: string): seq<string>
  {
    if |hs| == 0 then []
    else (if SameName(hs[0].name, name) then [hs[0].value] else []) + Values(hs[1..], name)
  }

  lemma {:induction false} ValuesConcat(a: seq<Header>, b: seq<Header>, name: string)
    ensures Values(a + b, name) == Values(a, name) + Values(b, name)
  {
    if |a| == 0 {
      assert a + b == b;
    } else {
      assert (a + b)[1..] == a[1..] + b;
      ValuesConcat(a[1..], b, name);
    }
  }

  lemma {:induction false} RemoveAllConcat(a: seq<Header>, b: seq<Header>, names: seq<string>)
    ensures RemoveAll(a + b, names) == RemoveAll(a, names) + RemoveAll(b, names)
  {
    if |a| == 0 {
      assert a + b == b;
    } else {
      assert (a + b)[1..] == a[1..] + b;
      RemoveAllConcat(a[1..], b, names);
    }
  }

  /** Removing a name leaves no value of that name, and the values of every other name as they were. */
  lemma {:induction false} ValuesAfterRemove(hs: seq<Header>, removed: string, name: string)
    ensures SameName(name, removed) ==> Values(RemoveAll(hs, [removed]), name) == []
    ensures !SameName(name, removed) ==> Values(RemoveAll(hs, [removed]), name) == Values(hs, name)
  {
    if |hs| > 0 {
      ValuesAfterRemove(hs[1..], removed, name);
      var h := hs[0];
      var rest := RemoveAll(hs[1..], [removed]);
      InSingleton(h.name, removed);
      if InNames(h.name, [removed]) {
        assert RemoveAll(hs, [removed]) == rest;
        if !SameName(name, removed) {
          assert SameName(h.name, removed);
          if SameName(h.name, name) {
            SameNameTransitive(name, h.name, removed);
          }
        }
      } else {
        assert RemoveAll(hs, [removed]) == [h] + rest;
        assert !SameName(h.name, removed);
        ValuesConcat([h], rest, name);
        if SameName(name, removed) && SameName(h.name, name) {
          SameNameTransitive(h.name, name, removed);
        }
      }
    }
  }

  /** Removing a name no field carries changes nothing. */
  lemma {:induction false} RemoveAllAbsent(hs: seq<Header>, names: seq<string>)
    requires forall h :: h in hs ==> !InNames(h.name, names)
    ensures RemoveAll(hs, names) == hs
  {
    if |hs| > 0 {
      assert hs[0] in hs;
      RemoveAllAbsent(hs[1..], names);
      assert hs == [hs[0]] + hs[1..];
    }
  }

  /** A single field has a value for its own name (up to case) and for no other. */
  lemma ValuesSingle(name: string, value: string, n: string)
    ensures SameName(n, name) ==> Values([Header(name, value)], n) == [value]
    ensures !SameName(n, name) ==> Values([Header(name, value)], n) == []
  {
    assert [Header(name, value)][1..] == [];
    assert SameName(n, name) <==> SameName(name, n);
  }

  /** `headers.add(name, value)`: the field goes after the existing ones. */
  function Add(hs: seq<Header>, name: string, value: string): seq<Header>
  {
    hs + [Header(name, value)]
  }

  /** Adding gives `name` one more value, after its existing ones; other names keep theirs. */
  lemma AddValues(hs: seq<Header>, name: string, value: string)
    ensures Values(Add(hs, name, value), name) == Values(hs, name) + [value]
    ensures forall n :: !SameName(n, name) ==> Values(Add(hs, name, value), n) == Values(hs, n)
  {
    forall n
      ensures SameName(n, name) ==> Values(Add(hs, name, value), n) == Values(hs, n) + [value]
      ensures !SameName(n, name) ==> Values(Add(hs, name, value), n) == Values(hs, n)
    {
      ValuesConcat(hs, [Header(name, value)], n);
      ValuesSingle(name, value, n);
      assert Values(hs, n) + [] == Values(hs, n);
    }
    assert SameName(name, name);
  }

  /** `headers.put(name, value)`: the fields of `name` are replaced by one for `value`. */
  function Put(hs: seq<Header>, name: string, value: string): seq<Header>
  {
    RemoveAll(hs, [name]) + [Header(name, value)]
  }

  /** After putting, `value` is the only value of `name`; other names keep theirs. */
  lemma PutValues(hs: seq<Header>, name: string, value: string)
    ensures Values(Put(hs, name, value), name) == [value]
    ensures forall n :: !SameName(n, name) ==> Values(Put(hs, name, value), n) == Values(hs, n)
  {
    var kept := RemoveAll(hs, [name]);
    forall n
      ensures SameName(n, name) ==> Values(Put(hs, name, value), n) == [value]
      ensures !SameName(n, name) ==> Values(Put(hs, name, value), n) == Values(hs, n)
    {
      ValuesConcat(kept, [Header(name, value)], n);
      ValuesSingle(name, value, n);
      ValuesAfterRemove(hs, name, n);
      assert SameName(n, name) <==> SameName(name, n);
      assert Values(kept, n) + [] == Values(kept, n);
      assert [] + [value] == [value];
    }
    assert SameName(name, name);
  }

  /** A second put of the same name replaces the first one's field as well as every earlier one. */
  lemma PutTwice(hs: seq<Header>, name: string, first: string, second: string)
    ensures Put(Put(hs, name, first), name, second) == Put(hs, name, second)
  {
    var kept := RemoveAll(hs, [name]);
    var field := Header(name, first);
    RemoveAllConcat(kept, [field], [name]);
    RemoveAllMembers(hs, [name]);
    RemoveAllAbsent(kept, [name]);
    InSingleton(name, name);
    assert RemoveAll([field], [name]) == [];
  }
}
