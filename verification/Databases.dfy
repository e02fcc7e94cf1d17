/** The state database: database/database.go and monitor/database.go. Entries are
    objects that the registry updates in place. */
module Databases {
  import opened Registries

  // ----- sorting keys -----

  /** The order of sort.Strings. */
  predicate Less(a: string, b: string) {
    b != [] && (a == [] || a[0] < b[0] || (a[0] == b[0] && Less(a[1..], b[1..])))
  }

  lemma {:induction false} LessIsTotal(a: string, b: string)
    ensures a != b ==> Less(a, b) != Less(b, a)
    ensures !Less(a, a)
  {
    if a != [] {
      LessIsTotal(a[1..], if b == [] then [] else b[1..]);
      assert a == [a[0]] + a[1..];
      if b != [] {
        assert b == [b[0]] + b[1..];
      }
    }
  }

  /** A string comes before another one when it is a proper prefix of it, or has the
      smaller character where the two first differ. */
  lemma {:induction false} LessIff(a: string, b: string)
    ensures Less(a, b) <==>
      a < b || exists i :: 0 <= i < |a| && i < |b| && a[..i] == b[..i] && a[i] < b[i]
  {
    if a != [] && b != [] {
      var a', b' := a[1..], b[1..];
      LessIff(a', b');
      assert a == [a[0]] + a' && b == [b[0]] + b';
      if a[0] == b[0] {
        assert a < b <==> a' < b';
        LaterDifference(a, b);
      } else {
        assert forall i :: 0 < i < |a| && i < |b| ==> a[..i][0] != b[..i][0];
        assert a[..0] == b[..0];
      }
    }
  }

  lemma LaterDifference(a: string, b: string)
    requires a != [] && b != [] && a[0] == b[0]
    ensures (exists i :: 0 <= i < |a| && i < |b| && a[..i] == b[..i] && a[i] < b[i])
       <==> (exists i :: 0 <= i < |a[1..]| && i < |b[1..]| && a[1..][..i] == b[1..][..i] && a[1..][i] < b[1..][i])
  {
    var a', b' := a[1..], b[1..];
    forall i | 0 < i < |a| && i < |b|
      ensures a[..i] == [a[0]] + a'[..i - 1] && b[..i] == [b[0]] + b'[..i - 1]
    {
    }
    if i :| 0 <= i < |a| && i < |b| && a[..i] == b[..i] && a[i] < b[i] {
      assert a'[..i - 1] == a[..i][1..] && b'[..i - 1] == b[..i][1..];
      assert a'[i - 1] < b'[i - 1];
    }
    if i :| 0 <= i < |a'| && i < |b'| && a'[..i] == b'[..i] && a'[i] < b'[i] {
      assert a[..i + 1] == b[..i + 1] && a[i + 1] < b[i + 1];
    }
  }

  lemma {:induction false} LessIsTransitive(a: string, b: string, c: string)
    requires Less(a, b) && Less(b, c)
    ensures Less(a, c)
  {
    if a != [] && a[0] == b[0] && b[0] == c[0] {
      LessIsTransitive(a[1..], b[1..], c[1..]);
    }
  }

  predicate Ascending(keys: seq<string>) {
    forall i, j :: 0 <= i < j < |keys| ==> Less(keys[i], keys[j])
  }

  function Insert(keys: seq<string>, k: string): seq<string> {
    if keys == [] || Less(k, keys[0]) then [k] + keys else [keys[0]] + Insert(keys[1..], k)
  }

  lemma {:induction false} InsertAdds(keys: seq<string>, k: string)
    ensures forall x :: x in Insert(keys, k) <==> x == k || x in keys
  {
    if keys != [] {
      InsertAdds(keys[1..], k);
      assert keys == [keys[0]] + keys[1..];
    }
  }

  lemma {:induction false} InsertKeepsOrder(keys: seq<string>, k: string)
    requires Ascending(keys) && k !in keys
    ensures Ascending(Insert(keys, k))
  {
    if keys != [] {
      LessIsTotal(k, keys[0]);
      if Less(k, keys[0]) {
        forall i | 0 < i < |keys|
          ensures Less(k, keys[i])
        {
          LessIsTransitive(k, keys[0], keys[i]);
        }
      } else {
        var rest := Insert(keys[1..], k);
        InsertKeepsOrder(keys[1..], k);
        InsertAdds(keys[1..], k);
        forall i | 0 <= i < |rest|
          ensures Less(keys[0], rest[i])
        {
          assert rest[i] in rest;
        }
      }
    }
  }

  // ----- the database -----

  class Entry {
    const id: string
    var monitored: bool

    constructor (id: string, monitored: bool)
      ensures this.id == id && this.monitored == monitored
    {
      this.id, this.monitored := id, monitored;
    }
  }

  class Database {
    var storage: map<string, Entry>
    var file: StateFile
    const named: bool
    /** The flags of the entries, as a value. */
    ghost var saved: map<string, bool>
    /** Every entry object that this database ever held. */
    ghost var entries: set<Entry>

    ghost predicate Valid()
      reads this, entries
    {
      && storage.Keys == saved.Keys
      && forall k :: k in storage ==>
           storage[k] in entries && storage[k].id == k && storage[k].monitored == saved[k]
    }

    /** NewDatabase: the entries of a valid file, and none otherwise. */
    constructor (file: StateFile, named: bool)
      ensures Valid() && fresh(entries)
      ensures saved == if file.Contents? then file.saved else map[]
      ensures this.file == file && this.named == named
    {
      this.file, this.named := file, named;
      storage, saved, entries := map[], map[], {};
      new;
      var decoded := Deserialize(file);
      var rest := decoded.Keys;
      while rest != {}
        invariant Valid() && fresh(entries) && this.file == file
        invariant rest <= decoded.Keys && saved.Keys == decoded.Keys - rest
        invariant forall k :: k in saved ==> saved[k] == decoded[k]
        decreases |rest|
      {
        var k :| k in rest;
        var e := Set(k, decoded[k]);
        rest := rest - {k};
      }
    }

    /** Stores a new entry object under its id. */
    method Set(id: string, monitored: bool) returns (e: Entry)
      requires Valid()
      modifies this`storage, this`saved, this`entries
      ensures Valid() && fresh(e) && e.id == id && entries == old(entries) + {e}
      ensures storage == old(storage)[id := e] && saved == old(saved)[id := monitored]
    {
      e := new Entry(id, monitored);
      storage, saved, entries := storage[id := e], saved[id := monitored], entries + {e};
    }

    method GetEntry(id: string) returns (e: Entry?)
      ensures e == if id in storage then storage[id] else null
    {
      return if id in storage then storage[id] else null;
    }

    method AddEntry(id: string) returns (e: Entry)
      requires Valid()
      modifies this`storage, this`saved, this`entries
      ensures Valid() && fresh(e) && e.id == id && entries == old(entries) + {e}
      ensures storage == old(storage)[id := e] && saved == old(saved)[id := true]
    {
      e := Set(id, true);
    }

    /** An assignment to the Monitored field of a stored entry. */
    method SetEntry(e: Entry, monitored: bool)
      requires Valid() && e.id in storage && storage[e.id] == e
      modifies this`saved, e
      ensures Valid() && saved == old(saved)[e.id := monitored]
    {
      e.monitored := monitored;
      saved := saved[e.id := monitored];
    }

    /** A new entry, whose Monitored field is then assigned. */
    method AddEntryWith(id: string, monitored: bool) returns (e: Entry)
      requires Valid() && id !in storage
      modifies this`storage, this`saved, this`entries
      ensures Valid() && fresh(e) && e.id == id && entries == old(entries) + {e}
      ensures saved == old(saved)[id := monitored]
    {
      e := AddEntry(id);
      SetEntry(e, monitored);
    }

    method Delete(id: string) returns (deleted: bool)
      requires Valid()
      modifies this`storage, this`saved
      ensures Valid() && storage == old(storage) - {id} && saved == old(saved) - {id}
      ensures deleted == (id in old(storage))
    {
      deleted := id in storage;
      if deleted {
        storage, saved := storage - {id}, saved - {id};
      }
    }

    /** The stored keys, in ascending order and without repetition. */
    method Keys() returns (keys: seq<string>)
      ensures Ascending(keys) && forall k :: k in keys <==> k in storage.Keys
    {
      keys := [];
      var rest := storage.Keys;
      while rest != {}
        invariant rest <= storage.Keys
        invariant Ascending(keys) && forall k :: k in keys <==> k in storage.Keys - rest
        decreases |rest|
      {
        var k :| k in rest;
        InsertKeepsOrder(keys, k);
        InsertAdds(keys, k);
        keys := Insert(keys, k);
        rest := rest - {k};
      }
    }

    /** Serialize writes the entries; `save` is how the write ends. */
    method Serialize(save: Save) returns (ok: bool)
      requires Valid()
      modifies this`file
      ensures Valid() && (file, ok) == Written(saved, old(file), named, save)
    {
      if !named {
        return false;
      }
      match save {
        case Saved =>
          var encoded := map k | k in storage :: storage[k].monitored;
          assert encoded == saved;
          file := Contents(encoded);
          return true;
        case OpenFailed =>
          return false;
        case WriteFailed(left) =>
          file := left;
          return false;
      }
    }
  }
}
