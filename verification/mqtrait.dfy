/**
 * The message representation shared by every backend (`Frame`) and the
 * capability contract a backend satisfies (`MessageQueue`).
 *
 * The header map of a frame is a `BTreeMap<String, Vec<String>>`: keys are
 * unique, iteration visits them in ascending order, and each key holds an
 * ordered list of values. It is modelled as a sequence of entries whose
 * keys are strictly ascending.
 */
module MqTrait {
  import opened Results
  import opened Text

  newtype byte = x: int | 0 <= x < 256

  /** One key of the header map together with its values, in order. */
  datatype HeaderEntry = HeaderEntry(key: string, values: seq<string>)

  predicate KeysAscending(h: seq<HeaderEntry>) {
    forall i, j :: 0 <= i < j < |h| ==> StrLess(h[i].key, h[j].key)
  }

  /** A header map: unique keys, visited in ascending order. */
  type Headers = h: seq<HeaderEntry> | KeysAscending(h)

  /** The `(key, value)` list a caller hands to `publish`/`request`; keys may repeat. */
  type HeaderList = seq<(string, string)>

  datatype Frame = Frame(topic: string, headers: Headers, payload: seq<byte>)

  function Keys(h: seq<HeaderEntry>): set<string> {
    set i | 0 <= i < |h| :: h[i].key
  }

  /** `BTreeMap::get` */
  function Lookup(h: seq<HeaderEntry>, k: string): (r: Option<seq<string>>)
    ensures r.Some? <==> k in Keys(h)
    decreases |h|
  {
    if h == [] then None
    else if h[0].key == k then Some(h[0].values)
    else
      assert Keys(h) == {h[0].key} + Keys(h[1..]) by {
        forall x | x in Keys(h) ensures x in {h[0].key} + Keys(h[1..]) {
          var i :| 0 <= i < |h| && h[i].key == x;
          if i > 0 {
            assert h[1..][i - 1].key == x;
          }
        }
      }
      Lookup(h[1..], k)
  }

  /** In a header map each entry is found by its own key: keys are unique. */
  lemma {:induction false} LookupEntry(h: Headers, i: nat)
    requires i < |h|
    ensures Lookup(h, h[i].key) == Some(h[i].values)
    decreases i
  {
    if i > 0 {
      assert StrLess(h[0].key, h[i].key);
      StrLessIrreflexive(h[0].key);
      var t: Headers := h[1..];
      LookupEntry(t, i - 1);
    }
  }

  lemma KeysCons(e: HeaderEntry, t: seq<HeaderEntry>)
    ensures Keys([e] + t) == {e.key} + Keys(t)
  {
    var h := [e] + t;
    assert h[0].key == e.key;
    forall x | x in Keys(h) ensures x in {e.key} + Keys(t) {
      var i :| 0 <= i < |h| && h[i].key == x;
      if i > 0 {
        assert t[i - 1].key == x;
      }
    }
    forall x | x in Keys(t) ensures x in Keys(h) {
      var i :| 0 <= i < |t| && t[i].key == x;
      assert h[i + 1].key == x;
    }
  }

  lemma LookupCons(e: HeaderEntry, t: seq<HeaderEntry>, k: string)
    ensures Lookup([e] + t, k) == if e.key == k then Some(e.values) else Lookup(t, k)
  {
    assert ([e] + t)[1..] == t;
  }

  /** Every key of `t` is above `x`. */
  predicate Above(x: string, t: seq<HeaderEntry>) {
    forall j :: 0 <= j < |t| ==> StrLess(x, t[j].key)
  }

  lemma AboveKeys(x: string, t: seq<HeaderEntry>)
    requires forall y :: y in Keys(t) ==> StrLess(x, y)
    ensures Above(x, t)
  {
    forall j | 0 <= j < |t| ensures StrLess(x, t[j].key) {
      assert t[j].key in Keys(t);
    }
  }

  lemma AscendingCons(e: HeaderEntry, t: seq<HeaderEntry>)
    requires KeysAscending(t) && Above(e.key, t)
    ensures KeysAscending([e] + t)
  {
    var h := [e] + t;
    forall i, j | 0 <= i < j < |h| ensures StrLess(h[i].key, h[j].key) {
      if i > 0 {
        assert h[i] == t[i - 1] && h[j] == t[j - 1];
      }
    }
  }

  lemma AboveTail(h: Headers)
    requires h != []
    ensures KeysAscending(h[1..]) && Above(h[0].key, h[1..])
  {
  }

  lemma AboveLower(x: string, h: Headers)
    requires h != [] && StrLess(x, h[0].key)
    ensures Above(x, h)
  {
    forall j | 0 <= j < |h| ensures StrLess(x, h[j].key) {
      if j > 0 {
        StrLessTransitive(x, h[0].key, h[j].key);
      }
    }
  }

  /** The insertion walk of `BTreeMap::insert` over the ascending entries. */
  function InsertEntry(h: seq<HeaderEntry>, k: string, vs: seq<string>): seq<HeaderEntry>
    decreases |h|
  {
    if h == [] then [HeaderEntry(k, vs)]
    else if h[0].key == k then [HeaderEntry(k, vs)] + h[1..]
    else if StrLess(k, h[0].key) then [HeaderEntry(k, vs)] + h
    else [h[0]] + InsertEntry(h[1..], k, vs)
  }

  /** What inserting into a header map does to its keys, values and order. */
  ghost predicate InsertSpec(h: seq<HeaderEntry>, k: string, vs: seq<string>, r: seq<HeaderEntry>) {
    && KeysAscending(r)
    && Lookup(r, k) == Some(vs)
    && (forall k' :: k' != k ==> Lookup(r, k') == Lookup(h, k'))
    && Keys(r) == Keys(h) + {k}
  }

  lemma InsertReplace(h: Headers, k: string, vs: seq<string>)
    requires h != [] && h[0].key == k
    ensures InsertSpec(h, k, vs, InsertEntry(h, k, vs))
  {
    var e := HeaderEntry(k, vs);
    var t := h[1..];
    assert h == [h[0]] + t;
    AboveTail(h);
    AscendingCons(e, t);
    KeysCons(e, t);
    KeysCons(h[0], t);
    LookupCons(e, t, k);
    forall k' | k' != k ensures Lookup([e] + t, k') == Lookup(h, k') {
      LookupCons(e, t, k');
      LookupCons(h[0], t, k');
    }
  }

  lemma InsertFront(h: Headers, k: string, vs: seq<string>)
    requires h != [] && StrLess(k, h[0].key)
    ensures InsertSpec(h, k, vs, InsertEntry(h, k, vs))
  {
    var e := HeaderEntry(k, vs);
    StrLessIrreflexive(k);
    AboveLower(k, h);
    AscendingCons(e, h);
    KeysCons(e, h);
    LookupCons(e, h, k);
    forall k' | k' != k ensures Lookup([e] + h, k') == Lookup(h, k') {
      LookupCons(e, h, k');
    }
  }

  lemma {:induction false} InsertEntrySpec(h: Headers, k: string, vs: seq<string>)
    ensures InsertSpec(h, k, vs, InsertEntry(h, k, vs))
    decreases |h|
  {
    if h == [] {
      assert Keys([HeaderEntry(k, vs)]) == {k} by {
        assert [HeaderEntry(k, vs)][0].key == k;
      }
    } else if h[0].key == k {
      InsertReplace(h, k, vs);
    } else if StrLess(k, h[0].key) {
      InsertFront(h, k, vs);
    } else {
      StrLessConnected(k, h[0].key);
      var t: Headers := h[1..];
      assert h == [h[0]] + t;
      InsertEntrySpec(t, k, vs);
      var rest := InsertEntry(t, k, vs);
      AboveTail(h);
      forall y | y in Keys(rest) ensures StrLess(h[0].key, y) {
        if y != k {
          var i :| 0 <= i < |t| && t[i].key == y;
        }
      }
      AboveKeys(h[0].key, rest);
      AscendingCons(h[0], rest);
      KeysCons(h[0], rest);
      KeysCons(h[0], t);
      LookupCons(h[0], rest, k);
      forall k' | k' != k ensures Lookup([h[0]] + rest, k') == Lookup(h, k') {
        LookupCons(h[0], rest, k');
        LookupCons(h[0], t, k');
      }
    }
  }

  /**
   * `BTreeMap::insert`: `k` now maps to `vs` (replacing any previous
   * values), every other key keeps its values, and the keys stay ascending.
   */
  function Insert(h: Headers, k: string, vs: seq<string>): (r: Headers)
    ensures Lookup(r, k) == Some(vs)
    ensures forall k' :: k' != k ==> Lookup(r, k') == Lookup(h, k')
    ensures Keys(r) == Keys(h) + {k}
  {
    InsertEntrySpec(h, k, vs);
    InsertEntry(h, k, vs)
  }

  /** The value a `(key, value)` list leaves for `k` when later pairs override earlier ones. */
  function LastValue(pairs: HeaderList, k: string): Option<string>
    decreases |pairs|
  {
    if pairs == [] then None
    else if pairs[|pairs| - 1].0 == k then Some(pairs[|pairs| - 1].1)
    else LastValue(pairs[..|pairs| - 1], k)
  }

  /** The keys occurring in a `(key, value)` list. */
  function PairKeys(pairs: HeaderList): set<string> {
    set i | 0 <= i < |pairs| :: pairs[i].0
  }

  lemma PairKeysSnoc(pairs: HeaderList)
    requires pairs != []
    ensures PairKeys(pairs) == PairKeys(pairs[..|pairs| - 1]) + {pairs[|pairs| - 1].0}
  {
    var init := pairs[..|pairs| - 1];
    forall x | x in PairKeys(pairs) ensures x in PairKeys(init) + {pairs[|pairs| - 1].0} {
      var i :| 0 <= i < |pairs| && pairs[i].0 == x;
      if i < |init| {
        assert init[i].0 == x;
      }
    }
    forall x | x in PairKeys(init) ensures x in PairKeys(pairs) {
      var i :| 0 <= i < |init| && init[i].0 == x;
      assert pairs[i].0 == x;
    }
  }

  /**
   * A map collected from a list of pairs: one single-value entry per key,
   * later pairs replacing earlier ones. Its keys are exactly those of the
   * list (FromPairsLookup gives the values).
   */
  function FromPairs(pairs: HeaderList): (r: Headers)
    ensures Keys(r) == PairKeys(pairs)
    decreases |pairs|
  {
    if pairs == [] then []
    else
      var last := pairs[|pairs| - 1];
      PairKeysSnoc(pairs);
      Insert(FromPairs(pairs[..|pairs| - 1]), last.0, [last.1])
  }

  /** Every key of the list maps to the single value of its last occurrence; other keys are absent. */
  lemma {:induction false} FromPairsLookup(pairs: HeaderList, k: string)
    ensures LastValue(pairs, k).None? ==> Lookup(FromPairs(pairs), k).None?
    ensures LastValue(pairs, k).Some? ==> Lookup(FromPairs(pairs), k) == Some([LastValue(pairs, k).value])
    decreases |pairs|
  {
    if pairs != [] {
      FromPairsLookup(pairs[..|pairs| - 1], k);
    }
  }

  /**
   * The capability contract of a backend, as the answers it gives. The
   * dispatcher only ever sees a backend through these answers:
   * `connect` is asked with the optional address, `publish` and
   * `request` answer their n-th call (counting from 0), and `subscribe`
   * yields, for a topic, the items its stream produces before it ends.
   * `info` renders the session description.
   */
  datatype MessageQueue = MessageQueue(
    connect: Option<string> -> Result<()>,
    info: Result<string>,
    publish: nat -> Result<()>,
    subscribe: string -> seq<Result<Frame>>,
    request: nat -> Result<Frame>)
}
