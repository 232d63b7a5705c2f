/**
 The chained hash table with intrusive items: kernel/src/htable.c.

 A key is the sequence of bytes its pointer and length denote. Items are linked through their own
 `next` fields, and a resize relinks every item in place.
 */
module HashTables {
  import opened Common

  type Key = seq<bv8>

  const INITIAL_SIZE := 1024

  /** A C `char` widened to `unsigned int`. */
  function Widened(b: bv8): bv32 {
    if b < 0x80 then b as bv32 else (b as bv32) | 0xFFFF_FF00
  }

  /** One round: exclusive or, then a multiplication in 32 bits. */
  function Mix(hash: bv32, b: bv8): bv32 {
    (hash ^ Widened(b)) * 16777619
  }

  /** The hash after the first `n` bytes of the key. */
  function HashPrefix(key: Key, n: nat): bv32
    requires n <= |key|
  {
    if n == 0 then 2166136261 else Mix(HashPrefix(key, n - 1), key[n - 1])
  }

  function Hash(key: Key): nat {
    HashPrefix(key, |key|) as nat
  }

  /** HashTableHash. */
  method ComputeHash(key: Key) returns (hash: nat)
    ensures hash == Hash(key)
  {
    var h: bv32 := 2166136261;
    for i := 0 to |key|
      invariant h == HashPrefix(key, i)
    {
      h := Mix(h, key[i]);
    }
    return h as nat;
  }

  /** The 32-bit FNV-1a values of the empty key, `a` and `foobar`, and a byte that sign extension changes. */
  lemma HashValues()
    ensures Hash([]) == 0x811C_9DC5 && Hash([0x61]) == 0xE40C_292C
    ensures Hash([0x66, 0x6F, 0x6F, 0x62, 0x61, 0x72]) == 0xBF9C_F968 && Hash([0xFF]) == 0xF9F3_A14E
  {
    var foobar: Key := [0x66, 0x6F, 0x6F, 0x62, 0x61, 0x72];
    assert HashPrefix(foobar, 1) == Mix(2166136261, 0x66);
    assert HashPrefix(foobar, 2) == Mix(HashPrefix(foobar, 1), 0x6F);
    assert HashPrefix(foobar, 3) == Mix(HashPrefix(foobar, 2), 0x6F);
    assert HashPrefix(foobar, 4) == Mix(HashPrefix(foobar, 3), 0x62);
    assert HashPrefix(foobar, 5) == Mix(HashPrefix(foobar, 4), 0x61);
    assert HashPrefix(foobar, 6) == Mix(HashPrefix(foobar, 5), 0x72);
  }

  /** HashTableGrowCheck: the load would pass seven eighths. */
  predicate MustGrow(bucketCount: nat, count: nat) {
    count > bucketCount * 7 / 8
  }

  lemma LoadIsSevenEighths(bucketCount: nat, count: nat)
    ensures MustGrow(bucketCount, count) <==> 8 * count > 7 * bucketCount
  {
  }

  lemma FewerFit(bucketCount: nat, count: nat)
    requires !MustGrow(bucketCount, count) && count > 0
    ensures !MustGrow(bucketCount, count - 1)
  {
  }

  function BucketOf(hash: nat, buckets: nat): (b: nat)
    requires buckets > 0
    ensures b < buckets && exists q: nat :: hash == q * buckets + b
  {
    assert hash == hash / buckets * buckets + hash % buckets;
    hash % buckets
  }

  /** The size HashTableInsert leaves the table with: 1024 at first, then doubled past a load of seven eighths. */
  function Enlarged(size: nat, count: nat): nat {
    if 8 * count <= 7 * size then size else if size == 0 then 1024 else 2 * size
  }

  class HashItem {
    var key: Key
    var hashValue: nat
    var next: HashItem?

    constructor ()
    {
      key, hashValue, next := [], 0, null;
    }
  }

  function At(chain: seq<HashItem>, i: nat): HashItem? {
    if i < |chain| then chain[i] else null
  }

  /** The chain hangs off `head`, each item naming the next and the last naming none. */
  ghost predicate Linked(head: HashItem?, chain: seq<HashItem>)
    reads chain
  {
    && head == At(chain, 0)
    && (forall i {:trigger chain[i].next} :: 0 <= i < |chain| ==> chain[i].next == At(chain, i + 1))
  }

  /** The items with the hash value each of them carries. */
  type Hashes = map<HashItem, nat>

  /** Every item of the chain is known, belongs in bucket `b`, and is there once. */
  ghost predicate Placed(chain: seq<HashItem>, b: nat, buckets: nat, hashes: Hashes)
    requires buckets > 0
  {
    && NoDuplicates(chain)
    && forall i :: 0 <= i < |chain| ==> chain[i] in hashes && BucketOf(hashes[chain[i]], buckets) == b
  }

  /** The item is in the chain its hash selects. */
  ghost predicate HasHome(chains: seq<seq<HashItem>>, hash: nat, x: HashItem) {
    |chains| > 0 && x in chains[BucketOf(hash, |chains|)]
  }

  /** The chains hold exactly the known items, each in the chain its hash selects. */
  ghost predicate Sorted(chains: seq<seq<HashItem>>, hashes: Hashes) {
    && (forall b {:trigger Placed(chains[b], b, |chains|, hashes)} ::
          0 <= b < |chains| ==> Placed(chains[b], b, |chains|, hashes))
    && (forall x {:trigger HasHome(chains, hashes[x], x)} :: x in hashes ==> HasHome(chains, hashes[x], x))
  }

  /** The buckets hold the chains. */
  ghost predicate Hung(buckets: array<HashItem?>, chains: seq<seq<HashItem>>, items: set<HashItem>)
    reads buckets, items
  {
    && buckets.Length == |chains|
    && forall b {:trigger Linked(buckets[b], chains[b])} :: 0 <= b < |chains| ==>
         && (forall i :: 0 <= i < |chains[b]| ==> chains[b][i] in items)
         && Linked(buckets[b], chains[b])
  }

  function Pushed(chains: seq<seq<HashItem>>, b: nat, x: HashItem): seq<seq<HashItem>>
    requires b < |chains|
  {
    chains[b := [x] + chains[b]]
  }

  lemma SortedAfterPush(chains: seq<seq<HashItem>>, hashes: Hashes, x: HashItem, hash: nat)
    requires Sorted(chains, hashes) && |chains| > 0 && x !in hashes
    ensures Sorted(Pushed(chains, BucketOf(hash, |chains|), x), hashes[x := hash])
  {
    var b := BucketOf(hash, |chains|);
    var longer := Pushed(chains, b, x);
    assert Placed(chains[b], b, |chains|, hashes);
    var after := hashes[x := hash];
    forall y | y in after
      ensures HasHome(longer, after[y], y)
    {
      assert y != x ==> HasHome(chains, hashes[y], y);
    }
    forall c | 0 <= c < |longer|
      ensures Placed(longer[c], c, |longer|, hashes[x := hash])
    {
      assert Placed(chains[c], c, |chains|, hashes);
    }
  }

  /** Putting an item at the front of a chain. */
  lemma PushFront(x: HashItem, chain: seq<HashItem>)
    requires Linked(x.next, chain)
    ensures Linked(x, [x] + chain)
  {
    var longer := [x] + chain;
    assert forall i :: 0 < i < |longer| ==> longer[i] == chain[i - 1];
  }

  /** The body of HashTableResize's inner loop: one item moves to the front of its new bucket. */
  method Relink(buckets: array<HashItem?>, item: HashItem, ghost chains: seq<seq<HashItem>>, ghost items: set<HashItem>)
    requires Hung(buckets, chains, items) && |chains| > 0 && item !in items
    modifies buckets, item`next
    ensures Hung(buckets, Pushed(chains, BucketOf(item.hashValue, |chains|), item), items + {item})
  {
    var b := BucketOf(item.hashValue, buckets.Length);
    assert Linked(buckets[b], chains[b]);
    item.next := buckets[b];
    buckets[b] := item;
    ghost var longer := Pushed(chains, b, item);
    assert Linked(item.next, chains[b]);
    PushFront(item, chains[b]);
    forall c | 0 <= c < |longer|
      ensures Linked(buckets[c], longer[c])
      ensures forall i :: 0 <= i < |longer[c]| ==> longer[c][i] in items + {item}
    {
      assert old(Linked(buckets[c], chains[c]));
      assert c == b ==> forall i :: 0 < i < |longer[c]| ==> longer[c][i] == chains[b][i - 1];
    }
  }

  /** The items from position `k` on are still linked as they were and have not been moved. */
  ghost predicate Ahead(chain: seq<HashItem>, k: nat, done: set<HashItem>)
    reads chain
  {
    forall i :: k <= i < |chain| ==> chain[i] !in done && chain[i].next == At(chain, i + 1)
  }

  /** Moves item `k` of the chain, leaving those after it alone. */
  method MoveOne(x: HashItem, ghost chain: seq<HashItem>, ghost k: nat, buckets: array<HashItem?>,
                 ghost chains: seq<seq<HashItem>>, ghost hashes: Hashes)
      returns (ghost moved: seq<seq<HashItem>>)
    requires k < |chain| && x == chain[k] && NoDuplicates(chain)
    requires Hung(buckets, chains, hashes.Keys) && Sorted(chains, hashes) && |chains| > 0
    requires Ahead(chain, k, hashes.Keys)
    modifies buckets, x`next
    ensures |moved| == |chains|
    ensures Hung(buckets, moved, hashes[x := x.hashValue].Keys) && Sorted(moved, hashes[x := x.hashValue])
    ensures Ahead(chain, k + 1, hashes[x := x.hashValue].Keys)
  {
    Relink(buckets, x, chains, hashes.Keys);
    SortedAfterPush(chains, hashes, x, x.hashValue);
    moved := Pushed(chains, BucketOf(x.hashValue, |chains|), x);
    assert hashes[x := x.hashValue].Keys == hashes.Keys + {x};
  }

  ghost predicate Within(known: Hashes, all: Hashes) {
    forall x :: x in known ==> x in all && known[x] == all[x]
  }

  /** HashTableResize's inner loop: every item of one old chain is relinked. */
  method MoveChain(head: HashItem?, ghost chain: seq<HashItem>, ghost all: Hashes, ghost movers: set<HashItem>,
                   buckets: array<HashItem?>, ghost chains: seq<seq<HashItem>>, ghost hashes: Hashes)
      returns (ghost moved: seq<seq<HashItem>>, ghost known: Hashes)
    requires Linked(head, chain) && NoDuplicates(chain)
    requires Hung(buckets, chains, hashes.Keys) && Sorted(chains, hashes) && |chains| > 0
    requires forall i :: 0 <= i < |chain| ==> chain[i] in movers
    requires forall x :: x in movers ==> x in chain && x !in hashes && x in all && x.hashValue == all[x]
    requires Within(hashes, all)
    modifies buckets, movers`next
    ensures |moved| == |chains| && Hung(buckets, moved, known.Keys) && Sorted(moved, known)
    ensures known.Keys == hashes.Keys + movers && Within(known, all)
  {
    moved, known := chains, hashes;
    var item := head;
    ghost var k := 0;
    while item != null
      invariant k <= |chain| && item == At(chain, k)
      invariant |moved| == |chains| && Hung(buckets, moved, known.Keys) && Sorted(moved, known)
      invariant Ahead(chain, k, known.Keys)
      invariant hashes.Keys <= known.Keys <= hashes.Keys + movers && Within(known, all)
      invariant forall i :: 0 <= i < k ==> chain[i] in known
      decreases |chain| - k
    {
      var x: HashItem := item;
      assert x == chain[k];
      item := x.next;
      moved := MoveOne(x, chain, k, buckets, moved, known);
      known := known[x := x.hashValue];
      k := k + 1;
    }
  }

  /** A bucket's chain holds exactly the items that hash to it. */
  lemma BucketItems(chains: seq<seq<HashItem>>, hashes: Hashes, b: nat)
    requires Sorted(chains, hashes) && b < |chains|
    ensures forall x :: x in chains[b] <==> x in hashes && BucketOf(hashes[x], |chains|) == b
    ensures NoDuplicates(chains[b])
  {
    assert Placed(chains[b], b, |chains|, hashes);
    forall x | x in hashes && BucketOf(hashes[x], |chains|) == b
      ensures x in chains[b]
    {
      assert HasHome(chains, hashes[x], x);
    }
  }

  class HashTable {
    var buckets: array<HashItem?>
    var itemCount: nat
    ghost var chains: seq<seq<HashItem>>
    /** The finite map the table stands for. */
    ghost var contents: map<Key, HashItem>
    /** HashTableHash; nothing depends on which function of the key's bytes it is. */
    const hash: Key -> nat

    ghost var hashes: Hashes

    /** The chains sort the items by hash, and the items carry the keys of the map. */
    ghost predicate Keyed()
      reads this, contents.Values
    {
      && Sorted(chains, hashes)
      && hashes.Keys == contents.Values
      && (forall k :: k in contents ==> contents[k].key == k && contents[k].hashValue == hash(k))
      && (forall x :: x in contents.Values ==> x.hashValue == hashes[x])
    }

    ghost predicate Valid()
      reads this, buckets, contents.Values
    {
      && Hung(buckets, chains, contents.Values)
      && Keyed()
      && itemCount == |contents|
      && !MustGrow(buckets.Length, itemCount)
    }

    /** A zeroed table. */
    constructor (hash: Key -> nat)
      ensures Valid() && contents == map[] && buckets.Length == 0 && fresh(buckets) && this.hash == hash
    {
      this.hash := hash;
      buckets := new HashItem?[0];
      itemCount := 0;
      chains := [];
      contents := map[];
      hashes := map[];
    }

    /** The loops of HashTableResize: every chain is emptied into the new buckets. */
    method MoveAll(target: array<HashItem?>) returns (ghost moved: seq<seq<HashItem>>)
      requires Hung(buckets, chains, hashes.Keys) && Sorted(chains, hashes)
      requires forall x :: x in hashes ==> x.hashValue == hashes[x]
      requires target != buckets && target.Length > 0 && forall b :: 0 <= b < target.Length ==> target[b] == null
      modifies target, hashes.Keys`next
      ensures Hung(target, moved, hashes.Keys) && Sorted(moved, hashes)
    {
      moved := seq(target.Length, _ => []);
      ghost var known: Hashes := map[];
      var i := 0;
      while i < buckets.Length
        invariant 0 <= i <= buckets.Length
        invariant |moved| == target.Length && Hung(target, moved, known.Keys) && Sorted(moved, known)
        invariant Within(known, hashes)
        invariant forall x :: x in hashes ==> (x in known <==> |chains| > 0 && BucketOf(hashes[x], |chains|) < i)
        invariant forall c :: i <= c < |chains| ==> Linked(buckets[c], chains[c])
      {
        ghost var movers := set x | x in chains[i];
        BucketItems(chains, hashes, i);
        forall c | i < c < |chains|
          ensures forall x :: x in chains[c] ==> x !in movers
        {
          BucketItems(chains, hashes, c);
        }
        moved, known := MoveChain(buckets[i], chains[i], hashes, movers, target, moved, known);
        i := i + 1;
      }
      forall x | x in hashes
        ensures x in known
      {
        assert HasHome(chains, hashes[x], x);
      }
      assert known == hashes;
    }

    /** HashTableResize to a size that can carry the load. */
    method Resize(newSize: nat)
      requires Valid() && newSize > 0 && !MustGrow(newSize, itemCount)
      modifies this`buckets, this`chains, contents.Values`next
      ensures Valid() && buckets.Length == newSize && fresh(buckets)
    {
      var target := new HashItem?[newSize](_ => null);
      ghost var moved := MoveAll(target);
      buckets := target;
      chains := moved;
    }

    /** HashTableFindFromBucket: the walk along one chain. */
    method FindInBucket(b: nat, key: Key) returns (found: HashItem?)
      requires Valid() && b < buckets.Length && b == BucketOf(hash(key), buckets.Length)
      ensures found == if key in contents then contents[key] else null
    {
      ghost var chain, i := chains[b], 0;
      BucketItems(chains, hashes, b);
      assert Linked(buckets[b], chain);
      assert key in contents ==> contents[key] in chain;
      found := buckets[b];
      while found != null
        invariant i <= |chain| && found == At(chain, i)
        invariant forall j :: 0 <= j < i ==> chain[j].key != key
        decreases |chain| - i
      {
        assert chain[i] in chain;
        if found.key == key {
          return;
        }
        found := found.next;
        i := i + 1;
      }
    }

    /** HashTableFind. */
    method Find(key: Key) returns (found: HashItem?)
      requires Valid()
      ensures found == if key in contents then contents[key] else null
    {
      if itemCount == 0 {
        return null;
      }
      found := FindInBucket(BucketOf(hash(key), buckets.Length), key);
    }

    /** Grows the table if one more item would overload it. */
    method MakeRoom()
      requires Valid()
      modifies this`buckets, this`chains, contents.Values`next
      ensures Valid() && !MustGrow(buckets.Length, itemCount + 1)
      ensures buckets.Length == Enlarged(old(buckets.Length), itemCount + 1)
      ensures fresh(buckets) || buckets == old(buckets)
    {
      LoadIsSevenEighths(buckets.Length, itemCount + 1);
      if MustGrow(buckets.Length, itemCount + 1) {
        Resize(if buckets.Length == 0 then INITIAL_SIZE else buckets.Length * 2);
      }
    }

    /** HashTableInsert of an item that is not in the table; refused if its key is. */
    method Insert(item: HashItem, key: Key) returns (inserted: bool)
      requires Valid() && item !in contents.Values
      modifies this, buckets, item, contents.Values`next
      ensures Valid()
      ensures inserted <==> key !in old(contents)
      ensures contents == if inserted then old(contents)[key := item] else old(contents)
      ensures buckets.Length == Enlarged(old(buckets.Length), old(itemCount) + 1)
      ensures inserted ==> item.key == key && item.hashValue == hash(key)
    {
      item.key := key;
      item.hashValue := hash(key);
      assert Valid();
      MakeRoom();
      var b := BucketOf(item.hashValue, buckets.Length);
      var existing := FindInBucket(b, key);
      if existing != null {
        return false;
      }
      Link(item, key);
      return true;
    }

    /** What Valid asks of a table with these contents. */
    ghost predicate Represents(
      chains: seq<seq<HashItem>>, hashes: Hashes, contents: map<Key, HashItem>, items: set<HashItem>)
      reads this, buckets, items
    {
      && contents.Values == items == hashes.Keys
      && Hung(buckets, chains, items)
      && Sorted(chains, hashes)
      && (forall k :: k in contents ==>
            contents[k] in items && contents[k].key == k && contents[k].hashValue == hash(k))
      && (forall x :: x in items ==> x.hashValue == hashes[x])
    }

    /** Stores the new item count; the table now stands for `after`. */
    method Record(count: nat, ghost moved: seq<seq<HashItem>>, ghost known: Hashes, ghost after: map<Key, HashItem>)
      requires Represents(moved, known, after, after.Values)
      requires count == |after| && !MustGrow(buckets.Length, count)
      modifies this`itemCount, this`chains, this`hashes, this`contents
      ensures Valid() && contents == after
    {
      itemCount := count;
      chains, hashes, contents := moved, known, after;
    }

    lemma LinkedRepresents(item: HashItem, key: Key)
      requires Keyed() && key !in contents && item !in contents.Values && |chains| > 0
      requires item.key == key && item.hashValue == hash(key)
      requires Hung(buckets, Pushed(chains, BucketOf(item.hashValue, |chains|), item), contents.Values + {item})
      ensures var after := contents[key := item];
              Represents(Pushed(chains, BucketOf(item.hashValue, |chains|), item), hashes[item := item.hashValue],
                         after, after.Values)
    {
      ValuesAfterInsert(contents, key, item);
      SortedAfterPush(chains, hashes, item, item.hashValue);
    }

    /** The last part of HashTableInsert: the item goes to the front of its bucket. */
    method Link(item: HashItem, key: Key)
      requires Valid() && item !in contents.Values && key !in contents
      requires item.key == key && item.hashValue == hash(key)
      requires !MustGrow(buckets.Length, itemCount + 1)
      modifies this`itemCount, this`chains, this`hashes, this`contents, buckets, item`next
      ensures Valid() && contents == old(contents)[key := item]
    {
      Relink(buckets, item, chains, contents.Values);
      assert Keyed();
      LinkedRepresents(item, key);
      Record(itemCount + 1, Pushed(chains, BucketOf(item.hashValue, |chains|), item),
             hashes[item := item.hashValue], contents[key := item]);
    }

    /** The search loop of HashTableRemoveKeyItem; `prev` is null when the link to change is the bucket itself. */
    method Locate(b: nat, item: HashItem?, key: Key) returns (prev: HashItem?, found: HashItem?, ghost p: nat)
      requires Valid() && b < buckets.Length
      ensures found == null ==>
        forall x :: x in chains[b] ==> x != item && (item == null ==> x.key != key)
      ensures found != null ==>
        && p < |chains[b]| && found == chains[b][p] && prev == (if p == 0 then null else chains[b][p - 1])
        && (found == item || (item == null && found.key == key))
    {
      ghost var chain := chains[b];
      assert Linked(buckets[b], chain);
      p := 0;
      prev, found := null, buckets[b];
      while found != null
        invariant p <= |chain| && found == At(chain, p) && prev == if p == 0 then null else chain[p - 1]
        invariant forall j :: 0 <= j < p ==> chain[j] != item && (item == null ==> chain[j].key != key)
        decreases |chain| - p
      {
        if found == item || (item == null && found.key == key) {
          return;
        }
        prev, found := found, found.next;
        p := p + 1;
      }
    }

    /** Takes the item at position `p` of bucket `b` out of its chain. */
    method Unlink(b: nat, prev: HashItem?, found: HashItem, ghost p: nat)
      requires Hung(buckets, chains, contents.Values) && b < |chains| && p < |chains[b]|
      requires NoDuplicates(chains[b])
      requires forall c :: 0 <= c < |chains| && c != b ==> found !in chains[c] && prev !in chains[c]
      requires found == chains[b][p] && prev == if p == 0 then null else chains[b][p - 1]
      modifies buckets, contents.Values`next
      ensures found.next == null
      ensures Hung(buckets, Cut(chains, b, p), contents.Values - {found})
    {
      ghost var chain := chains[b];
      ghost var shorter := chain[..p] + chain[p + 1..];
      assert Linked(buckets[b], chain) && chain[p].next == At(chain, p + 1);
      if prev == null {
        buckets[b] := found.next;
      } else {
        prev.next := found.next;
      }
      found.next := null;
      assert forall i :: 0 <= i < |shorter| ==> shorter[i] == chain[if i < p then i else i + 1];
      assert Linked(buckets[b], shorter);
      forall c | 0 <= c < |chains| && c != b
        ensures Linked(buckets[c], chains[c])
      {
        assert old(Linked(buckets[c], chains[c]));
      }
    }

    lemma UnlinkedRepresents(b: nat, p: nat)
        returns (moved: seq<seq<HashItem>>, known: Hashes, after: map<Key, HashItem>)
      requires Keyed() && b < |chains| && p < |chains[b]| && chains[b][p] in contents.Values
      requires Hung(buckets, Cut(chains, b, p), contents.Values - {chains[b][p]})
      ensures Represents(moved, known, after, after.Values)
      ensures after == contents - {chains[b][p].key}
      ensures chains[b][p].key in contents && |after| == |contents| - 1
    {
      var x := chains[b][p];
      var key :| key in contents && contents[key] == x;
      ValuesAfterRemove(contents, key);
      SortedAfterCut(chains, hashes, b, p);
      assert |contents.Keys - {key}| == |contents.Keys| - 1 && (contents - {key}).Keys == contents.Keys - {key};
      moved, known, after := Cut(chains, b, p), hashes - {x}, contents - {key};
    }

    /** The chains of different buckets share no item. */
    lemma OtherChains(b: nat, c: nat)
      requires Keyed() && b < |chains| && c < |chains| && b != c
      ensures forall x :: x in chains[b] ==> x !in chains[c]
    {
      BucketItems(chains, hashes, b);
      BucketItems(chains, hashes, c);
    }

    /** An item found in a chain is the one the map has for its key, and is in no other chain. */
    lemma FoundFacts(b: nat, p: nat)
      requires Keyed() && b < |chains| && p < |chains[b]|
      ensures NoDuplicates(chains[b])
      ensures var x := chains[b][p];
              x in contents.Values && x.key in contents && contents[x.key] == x
      ensures forall c, i :: 0 <= c < |chains| && c != b && 0 <= i < |chains[b]| ==> chains[b][i] !in chains[c]
    {
      BucketItems(chains, hashes, b);
      assert chains[b][p] in chains[b];
      forall c, i | 0 <= c < |chains| && c != b && 0 <= i < |chains[b]|
        ensures chains[b][i] !in chains[c]
      {
        OtherChains(b, c);
      }
    }

    /** The links change, the keys and hashes do not. */
    method UnlinkFound(b: nat, prev: HashItem?, found: HashItem, ghost p: nat)
      requires Hung(buckets, chains, contents.Values) && Keyed() && b < |chains| && p < |chains[b]|
      requires found == chains[b][p] && prev == if p == 0 then null else chains[b][p - 1]
      modifies buckets, contents.Values`next
      ensures Keyed() && found.next == null
      ensures Hung(buckets, Cut(chains, b, p), contents.Values - {found})
    {
      FoundFacts(b, p);
      Unlink(b, prev, found, p);
    }

    /** Takes a found item out; the table then represents the map without it. */
    method TakeOut(b: nat, prev: HashItem?, found: HashItem, ghost p: nat)
        returns (ghost moved: seq<seq<HashItem>>, ghost known: Hashes, ghost after: map<Key, HashItem>)
      requires Hung(buckets, chains, contents.Values) && Keyed() && b < |chains| && p < |chains[b]|
      requires found == chains[b][p] && prev == if p == 0 then null else chains[b][p - 1]
      modifies buckets, contents.Values`next
      ensures found.next == null
      ensures Represents(moved, known, after, after.Values)
      ensures found.key in contents && contents[found.key] == found
      ensures after == contents - {found.key} && |after| == |contents| - 1
    {
      FoundFacts(b, p);
      UnlinkFound(b, prev, found, p);
      moved, known, after := UnlinkedRepresents(b, p);
    }

    /** HashTableRemoveKeyItem once the item has been found. */
    method RemoveFound(b: nat, prev: HashItem?, found: HashItem, ghost p: nat)
      requires Valid() && b < |chains| && p < |chains[b]| && found == chains[b][p]
      requires prev == if p == 0 then null else chains[b][p - 1]
      modifies this`itemCount, this`chains, this`hashes, this`contents, buckets, contents.Values`next
      ensures Valid() && found.next == null
      ensures found.key in old(contents) && old(contents)[found.key] == found
      ensures contents == old(contents) - {found.key}
    {
      ghost var moved, known, after := TakeOut(b, prev, found, p);
      FewerFit(buckets.Length, itemCount);
      Record(itemCount - 1, moved, known, after);
    }

    /**
     HashTableRemoveKeyItem: by key when `item` is null, otherwise by identity. An item that is not in
     the table is looked for, in vain, in the bucket its hash field selects.
     */
    method RemoveKeyItem(item: HashItem?, key: Key) returns (removed: bool)
      requires Valid()
      modifies this`itemCount, this`chains, this`hashes, this`contents, buckets, contents.Values`next
      ensures Valid()
      ensures removed <==> if item == null then key in old(contents) else item in old(contents).Values
      ensures contents == if !removed then old(contents) else old(contents) - {if item == null then key else item.key}
      ensures removed ==> (if item == null then old(contents)[key] else item).next == null
    {
      if itemCount == 0 {
        return false;
      }
      var b := BucketOf(if item == null then hash(key) else item.hashValue, buckets.Length);
      BucketItems(chains, hashes, b);
      assert item == null && key in contents ==> contents[key] in chains[b];
      var prev, found;
      ghost var p;
      prev, found, p := Locate(b, item, key);
      if found == null {
        return false;
      }
      RemoveFound(b, prev, found, p);
      return true;
    }

    /** HashTableReserve; the loop needs a bucket to double. */
    method Reserve(count: nat)
      requires Valid() && (buckets.Length > 0 || count == 0)
      modifies this`buckets, this`chains, contents.Values`next
      ensures Valid() && buckets.Length == Reserved(old(buckets.Length), Capped(count))
    {
      var wanted := Capped(count);
      if MustGrow(buckets.Length, wanted) {
        var size := buckets.Length;
        while size < wanted
          invariant size >= buckets.Length > 0
          invariant Doubled(size, wanted) == Doubled(buckets.Length, wanted)
        {
          size := size * 2;
        }
        Resize(size);
      }
    }
  }

  function Capped(count: nat): nat {
    if count > 0x4000_0000 then 0x4000_0000 else count
  }

  /** The first doubling of `size` that is at least `wanted`. */
  function Doubled(size: nat, wanted: nat): nat
    requires size > 0
    decreases wanted - size
  {
    if size >= wanted then size else Doubled(size * 2, wanted)
  }

  /** The size HashTableReserve leaves the table with. */
  function Reserved(size: nat, wanted: nat): nat
    requires size > 0 || wanted == 0
  {
    if MustGrow(size, wanted) then Doubled(size, wanted) else size
  }

  /** The size after `k` doublings. */
  function Scaled(size: nat, k: nat): nat
    decreases k
  {
    if k == 0 then size else Scaled(size * 2, k - 1)
  }

  /** The doubling loop ends exactly if there is a bucket to double or nothing to reach. */
  lemma ReserveEndsIff(size: nat, wanted: nat)
    ensures (exists k: nat :: Scaled(size, k) >= wanted) <==> size > 0 || wanted == 0
  {
    if size > 0 {
      ScaledGrows(size, wanted);
      assert Scaled(size, wanted) >= wanted;
    } else if wanted == 0 {
      assert Scaled(size, 0) >= wanted;
    } else {
      forall k: nat
        ensures Scaled(0, k) < wanted
      {
        ScaledZero(k);
      }
    }
  }

  lemma {:induction false} ScaledGrows(size: nat, k: nat)
    requires size > 0
    ensures Scaled(size, k) >= size + k
    decreases k
  {
    if k > 0 {
      ScaledGrows(size * 2, k - 1);
    }
  }

  lemma {:induction false} ScaledZero(k: nat)
    ensures Scaled(0, k) == 0
  {
    if k > 0 {
      ScaledZero(k - 1);
    }
  }

  lemma {:induction false} DoubledIsScaled(size: nat, wanted: nat) returns (k: nat)
    requires size > 0
    ensures Doubled(size, wanted) == Scaled(size, k) >= wanted
    ensures forall j: nat :: j < k ==> Scaled(size, j) < wanted
    decreases wanted - size
  {
    if size >= wanted {
      k := 0;
    } else {
      var rest := DoubledIsScaled(size * 2, wanted);
      k := rest + 1;
      forall j: nat | j < k
        ensures Scaled(size, j) < wanted
      {
        assert j > 0 ==> Scaled(size, j) == Scaled(size * 2, j - 1);
      }
    }
  }

  /**
   Reserving stops at the first doubling that is at least the count, not at one that can carry it, so
   storing that many items can still make the table grow: exactly when the count falls in the top
   eighth below the doubling it stops at.
   */
  lemma ReserveFallsShortIff(size: nat, wanted: nat)
    requires size > 0
    ensures MustGrow(Reserved(size, wanted), wanted) <==>
            exists k: nat :: Scaled(size, k) * 7 / 8 < wanted <= Scaled(size, k)
  {
    var k := DoubledIsScaled(size, wanted);
    if MustGrow(Reserved(size, wanted), wanted) {
      assert Scaled(size, k) * 7 / 8 < wanted <= Scaled(size, k);
    } else if j: nat :| Scaled(size, j) * 7 / 8 < wanted <= Scaled(size, j) {
      ScaledMonotone(size, 0, j);
      assert j >= k;
      ScaledMonotone(size, k, j);
    }
  }

  /** Reserving 1000 in a table of 1024 buckets leaves it as it is, and the 1000 items make it grow. */
  lemma ReserveFallsShortExample()
    ensures Reserved(1024, 1000) == 1024 && MustGrow(Reserved(1024, 1000), 1000)
  {
    assert Scaled(1024, 0) == 1024;
    ReserveFallsShortIff(1024, 1000);
  }

  lemma {:induction false} ScaledMonotone(size: nat, j: nat, k: nat)
    requires j <= k
    ensures Scaled(size, j) <= Scaled(size, k)
    decreases k
  {
    if j > 0 {
      ScaledMonotone(size * 2, j - 1, k - 1);
    } else if k > 0 {
      ScaledMonotone(size * 2, 0, k - 1);
    }
  }

  function Cut(chains: seq<seq<HashItem>>, b: nat, p: nat): seq<seq<HashItem>>
    requires b < |chains| && p < |chains[b]|
  {
    chains[b := chains[b][..p] + chains[b][p + 1..]]
  }

  lemma SortedAfterCut(chains: seq<seq<HashItem>>, hashes: Hashes, b: nat, p: nat)
    requires Sorted(chains, hashes) && b < |chains| && p < |chains[b]|
    ensures Sorted(Cut(chains, b, p), hashes - {chains[b][p]})
  {
    var x := chains[b][p];
    var shorter := Cut(chains, b, p);
    assert Placed(chains[b], b, |chains|, hashes);
    assert forall i :: 0 <= i < |shorter[b]| ==> shorter[b][i] == chains[b][if i < p then i else i + 1];
    forall c | 0 <= c < |shorter|
      ensures Placed(shorter[c], c, |shorter|, hashes - {x})
    {
      assert Placed(chains[c], c, |chains|, hashes);
    }
    var less := hashes - {x};
    forall y | y in less
      ensures HasHome(shorter, less[y], y)
    {
      assert HasHome(chains, hashes[y], y);
      var home := BucketOf(hashes[y], |chains|);
      var i :| 0 <= i < |chains[home]| && chains[home][i] == y;
      if home == b {
        assert shorter[b][if i < p then i else i - 1] == y;
      }
    }
  }

  lemma ValuesAfterRemove(m: map<Key, HashItem>, key: Key)
    requires key in m && forall j, k :: j in m && k in m && m[j] == m[k] ==> j == k
    ensures (m - {key}).Values == m.Values - {m[key]}
  {
    var less := m - {key};
    forall x | x in m.Values && x != m[key]
      ensures x in less.Values
    {
      var k :| k in m && m[k] == x;
      assert less[k] == x;
    }
  }

  lemma ValuesAfterInsert(m: map<Key, HashItem>, key: Key, item: HashItem)
    requires key !in m
    ensures m[key := item].Values == m.Values + {item}
  {
    var after := m[key := item];
    assert after[key] == item;
    forall x | x in m.Values
      ensures x in after.Values
    {
      var k :| k in m && m[k] == x;
      assert after[k] == x;
    }
  }
}
