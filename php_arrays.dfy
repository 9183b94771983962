/** PHP values and PHP arrays (ordered dictionaries keyed by integers and
    strings), with the array operations and conversions the core relies on. */
module PhpArrays {
  import opened Wrappers
  import opened Text

  datatype Key = IntKey(n: int) | StrKey(s: string)

  /** A PHP value. Objects only occur as what json_decode returns for a JSON
      object when it is not asked for associative arrays (stdClass). */
  datatype Value =
    | VNull
    | VBool(b: bool)
    | VInt(i: int)
    | VFloat(x: real)
    | VStr(s: string)
    | VArr(entries: seq<(Key, Value)>)
    | VObj(props: seq<(Key, Value)>)

  /** The entries of a PHP array, in insertion order. */
  type Entries<V> = seq<(Key, V)>

  /** The PHP built-ins that the model leaves uninterpreted. */
  datatype Php = Php(
    /** is_numeric */
    isNumeric: string -> bool,
    /** json_decode(text, assoc): None when the text is not JSON */
    jsonDecode: (string, bool) -> Option<Value>,
    /** json_encode: None when it returns false */
    jsonEncode: Value -> Option<string>)

  const MinInt: int := -0x8000_0000_0000_0000
  const MaxInt: int := 0x7FFF_FFFF_FFFF_FFFF

  /** PHP's boolean conversion: null, false, 0, 0.0, "", "0" and [] are false. */
  predicate Truthy(v: Value) {
    match v
    case VNull => false
    case VBool(b) => b
    case VInt(i) => i != 0
    case VFloat(x) => x != 0.0
    case VStr(s) => s != "" && s != "0"
    case VArr(e) => e != []
    case VObj(_) => true
  }

  /** The boolean conversion of a nullable string. */
  predicate TruthyText(s: Option<string>) {
    s.Some? && s.value != "" && s.value != "0"
  }

  /** A decimal integer written the way PHP writes it ("0", "17", "-4"). */
  predicate IsIntegerText(s: string) {
    CanonicalDigits(s) || (|s| >= 2 && s[0] == '-' && s[1] != '0' && CanonicalDigits(s[1..]))
  }

  function IntegerValue(s: string): int
    requires IsIntegerText(s)
  {
    if s[0] == '-' then -(DecimalValue(s[1..]) as int) else DecimalValue(s)
  }

  /** The string form of an array key (string interpolation of a key). */
  function KeyText(k: Key): string {
    match k
    case IntKey(n) => IntText(n)
    case StrKey(s) => s
  }

  /** The key `$a[$s]` stores under: a string that is a decimal integer in the
      64-bit range becomes an integer key; the key's text is always `s`. */
  function ArrayKey(s: string): (k: Key)
    ensures KeyText(k) == s
    ensures k.StrKey? ==> k.s == s
  {
    if IsIntegerText(s) && MinInt <= IntegerValue(s) <= MaxInt then
      if s[0] == '-' then
        DecimalRoundTrip(s[1..]);
        assert s == "-" + s[1..];
        IntKey(IntegerValue(s))
      else
        DecimalRoundTrip(s);
        IntKey(IntegerValue(s))
    else
      StrKey(s)
  }

  predicate HasKey<V>(e: Entries<V>, k: Key) {
    exists i :: 0 <= i < |e| && e[i].0 == k
  }

  predicate UniqueKeys<V>(e: Entries<V>) {
    forall i, j :: 0 <= i < j < |e| ==> e[i].0 != e[j].0
  }

  /** `$a[$k] ?? null`: the value stored under `k`. */
  function Get<V>(e: Entries<V>, k: Key): (r: Option<V>)
    ensures r.Some? <==> HasKey(e, k)
    ensures r.Some? ==> exists i :: 0 <= i < |e| && e[i] == (k, r.value)
  {
    if e == [] then None
    else if e[0].0 == k then Some(e[0].1)
    else
      var r := Get(e[1..], k);
      assert HasKey(e, k) ==> HasKey(e[1..], k) by {
        if HasKey(e, k) {
          var i :| 0 <= i < |e| && e[i].0 == k;
          assert e[1..][i - 1].0 == k;
        }
      }
      assert r.Some? ==> exists i :: 0 <= i < |e| && e[i] == (k, r.value) by {
        if r.Some? {
          var i :| 0 <= i < |e[1..]| && e[1..][i] == (k, r.value);
          assert e[i + 1] == (k, r.value);
        }
      }
      r
  }

  /** `$a[$k] = $v`: an existing key keeps its position and gets the new value,
      a new key is appended. */
  function Put<V>(e: Entries<V>, k: Key, v: V): (r: Entries<V>)
    ensures Get(r, k) == Some(v)
    ensures forall k' :: k' != k ==> Get(r, k') == Get(e, k')
  {
    if e == [] then [(k, v)]
    else if e[0].0 == k then [(k, v)] + e[1..]
    else
      var rest := Put(e[1..], k, v);
      assert ([e[0]] + rest)[1..] == rest;
      [e[0]] + rest
  }

  lemma HasKeyTail<V>(e: Entries<V>, k: Key)
    requires e != [] && e[0].0 != k
    ensures HasKey(e, k) <==> HasKey(e[1..], k)
  {
    if HasKey(e, k) {
      var i :| 0 <= i < |e| && e[i].0 == k;
      assert e[1..][i - 1].0 == k;
    }
    if HasKey(e[1..], k) {
      var i :| 0 <= i < |e[1..]| && e[1..][i].0 == k;
      assert e[i + 1].0 == k;
    }
  }

  /** Assigning a new key appends it; assigning an existing one keeps the
      order of the keys. */
  lemma {:induction false} PutPositions<V>(e: Entries<V>, k: Key, v: V)
    ensures !HasKey(e, k) ==> Put(e, k, v) == e + [(k, v)]
    ensures HasKey(e, k) ==> |Put(e, k, v)| == |e| && forall i :: 0 <= i < |e| ==> Put(e, k, v)[i].0 == e[i].0
  {
    if e == [] {
    } else if e[0].0 == k {
      assert HasKey(e, k);
      var r := Put(e, k, v);
      assert r == [(k, v)] + e[1..];
      assert forall i :: 1 <= i < |e| ==> r[i] == e[i];
    } else {
      HasKeyTail(e, k);
      PutPositions(e[1..], k, v);
      var rest := Put(e[1..], k, v);
      assert Put(e, k, v) == [e[0]] + rest;
      if !HasKey(e, k) {
        assert [e[0]] + (e[1..] + [(k, v)]) == e + [(k, v)];
      } else {
        assert forall i :: 1 <= i < |e| ==> ([e[0]] + rest)[i] == rest[i - 1];
      }
    }
  }

  /** Assignment keeps the keys of an array distinct. */
  lemma {:induction false} PutUnique<V>(e: Entries<V>, k: Key, v: V)
    requires UniqueKeys(e)
    ensures UniqueKeys(Put(e, k, v))
  {
    PutPositions(e, k, v);
    var r := Put(e, k, v);
    if HasKey(e, k) {
      assert forall i :: 0 <= i < |r| ==> r[i].0 == e[i].0;
    } else {
      forall i, j | 0 <= i < j < |r| ensures r[i].0 != r[j].0 {
        if j == |e| {
          assert r[i].0 == e[i].0;
        }
      }
    }
  }

  /** The values stored under integer keys, in order. */
  function IntValues<V>(e: Entries<V>): seq<V> {
    if e == [] then []
    else if e[0].0.IntKey? then [e[0].1] + IntValues(e[1..])
    else IntValues(e[1..])
  }

  /** The entries stored under integer keys, in order. */
  function IntEntries<V>(e: Entries<V>): Entries<V> {
    if e == [] then []
    else if e[0].0.IntKey? then [e[0]] + IntEntries(e[1..])
    else IntEntries(e[1..])
  }

  /** `vs` under the consecutive integer keys n, n + 1, ... */
  function NumberedFrom<V>(vs: seq<V>, n: int): Entries<V> {
    if vs == [] then [] else [(IntKey(n), vs[0])] + NumberedFrom(vs[1..], n + 1)
  }

  /** The loop inside array_merge: string keys are assigned (overwriting),
      integer keys are appended under the next free index `next`. */
  function AppendAll<V>(acc: Entries<V>, es: Entries<V>, next: int): Entries<V>
    decreases |es|
  {
    if es == [] then acc
    else AppendAll(MergeStep(acc, es[0], next), es[1..], NextIndex(es[0], next))
  }

  /** One iteration of the merge loop: an integer key is appended under
      `next`, a string key is assigned. */
  function MergeStep<V>(acc: Entries<V>, e: (Key, V), next: int): Entries<V> {
    if e.0.IntKey? then acc + [(IntKey(next), e.1)] else Put(acc, e.0, e.1)
  }

  /** The next free integer key after one iteration. */
  function NextIndex<V>(e: (Key, V), next: int): int {
    if e.0.IntKey? then next + 1 else next
  }

  /** array_merge(a, b): the loop runs over `a`, then over `b`, with one
      counter of integer keys. */
  function Merge<V>(a: Entries<V>, b: Entries<V>): Entries<V> {
    AppendAll(AppendAll([], a, 0), b, |IntValues(a)|)
  }

  lemma {:induction false} GetAppendOther<V>(e: Entries<V>, k: Key, k': Key, v: V)
    requires k != k'
    ensures Get(e + [(k', v)], k) == Get(e, k)
  {
    if e != [] {
      assert (e + [(k', v)])[1..] == e[1..] + [(k', v)];
      GetAppendOther(e[1..], k, k', v);
    }
  }

  lemma {:induction false} IntEntriesAppend<V>(e: Entries<V>, x: (Key, V))
    ensures IntEntries(e + [x]) == IntEntries(e) + (if x.0.IntKey? then [x] else [])
  {
    if e != [] {
      assert (e + [x])[1..] == e[1..] + [x];
      IntEntriesAppend(e[1..], x);
    }
  }

  lemma {:induction false} IntEntriesPutString<V>(e: Entries<V>, s: string, v: V)
    ensures IntEntries(Put(e, StrKey(s), v)) == IntEntries(e)
  {
    if e != [] && e[0].0 != StrKey(s) {
      IntEntriesPutString(e[1..], s, v);
      assert ([e[0]] + Put(e[1..], StrKey(s), v))[1..] == Put(e[1..], StrKey(s), v);
    }
  }

  /** Every integer key of `acc` lies below `next`. */
  predicate IntKeysBelow<V>(acc: Entries<V>, next: int) {
    forall i :: 0 <= i < |acc| && acc[i].0.IntKey? ==> acc[i].0.n < next
  }

  lemma {:induction false} AppendAllUnique<V>(acc: Entries<V>, es: Entries<V>, next: int)
    requires UniqueKeys(acc) && IntKeysBelow(acc, next)
    ensures UniqueKeys(AppendAll(acc, es, next))
    decreases |es|
  {
    if es != [] {
      if es[0].0.IntKey? {
        var acc' := acc + [(IntKey(next), es[0].1)];
        assert UniqueKeys(acc') by {
          forall i, j | 0 <= i < j < |acc'| ensures acc'[i].0 != acc'[j].0 {
            if j == |acc| && acc[i].0.IntKey? {
              assert acc[i].0.n < next;
            }
          }
        }
        AppendAllUnique(acc', es[1..], next + 1);
      } else {
        var acc' := Put(acc, es[0].0, es[0].1);
        PutUnique(acc, es[0].0, es[0].1);
        PutPositions(acc, es[0].0, es[0].1);
        assert IntKeysBelow(acc', next) by {
          if !HasKey(acc, es[0].0) {
            assert acc' == acc + [es[0]];
          }
        }
        AppendAllUnique(acc', es[1..], next);
      }
    }
  }

  lemma {:induction false} AppendAllStringKey<V>(acc: Entries<V>, es: Entries<V>, next: int, s: string)
    requires UniqueKeys(es)
    ensures Get(AppendAll(acc, es, next), StrKey(s))
         == if HasKey(es, StrKey(s)) then Get(es, StrKey(s)) else Get(acc, StrKey(s))
    decreases |es|
  {
    if es != [] {
      assert UniqueKeys(es[1..]) by {
        forall i, j | 0 <= i < j < |es[1..]| ensures es[1..][i].0 != es[1..][j].0 {
          assert es[i + 1].0 != es[j + 1].0;
        }
      }
      if es[0].0.IntKey? {
        HasKeyTail(es, StrKey(s));
        GetAppendOther(acc, StrKey(s), IntKey(next), es[0].1);
        AppendAllStringKey(acc + [(IntKey(next), es[0].1)], es[1..], next + 1, s);
      } else if es[0].0 == StrKey(s) {
        assert !HasKey(es[1..], StrKey(s)) by {
          forall i | 0 <= i < |es[1..]| ensures es[1..][i].0 != StrKey(s) {
            assert es[1..][i] == es[i + 1];
          }
        }
        AppendAllStringKey(Put(acc, es[0].0, es[0].1), es[1..], next, s);
      } else {
        HasKeyTail(es, StrKey(s));
        AppendAllStringKey(Put(acc, es[0].0, es[0].1), es[1..], next, s);
      }
    }
  }

  lemma {:induction false} AppendAllIntEntries<V>(acc: Entries<V>, es: Entries<V>, next: int)
    ensures IntEntries(AppendAll(acc, es, next)) == IntEntries(acc) + NumberedFrom(IntValues(es), next)
    decreases |es|
  {
    if es != [] {
      if es[0].0.IntKey? {
        IntEntriesAppend(acc, (IntKey(next), es[0].1));
        AppendAllIntEntries(acc + [(IntKey(next), es[0].1)], es[1..], next + 1);
        assert IntValues(es) == [es[0].1] + IntValues(es[1..]);
        assert NumberedFrom(IntValues(es), next)
            == [(IntKey(next), es[0].1)] + NumberedFrom(IntValues(es[1..]), next + 1);
      } else {
        IntEntriesPutString(acc, es[0].0.s, es[0].1);
        AppendAllIntEntries(Put(acc, es[0].0, es[0].1), es[1..], next);
      }
    }
  }

  /** The merge loop keeps every integer key below its counter. */
  lemma {:induction false} AppendAllIntKeysBelow<V>(acc: Entries<V>, es: Entries<V>, next: int)
    requires IntKeysBelow(acc, next)
    ensures IntKeysBelow(AppendAll(acc, es, next), next + |IntValues(es)|)
    decreases |es|
  {
    if es != [] {
      var acc', next' := MergeStep(acc, es[0], next), NextIndex(es[0], next);
      assert IntKeysBelow(acc', next') by {
        if !es[0].0.IntKey? {
          PutPositions(acc, es[0].0, es[0].1);
        }
      }
      AppendAllIntKeysBelow(acc', es[1..], next');
      assert next + |IntValues(es)| == next' + |IntValues(es[1..])|;
    }
  }

  lemma {:induction false} NumberedFromConcat<V>(x: seq<V>, y: seq<V>, n: int)
    ensures NumberedFrom(x + y, n) == NumberedFrom(x, n) + NumberedFrom(y, n + |x|)
    decreases |x|
  {
    if x == [] {
      assert x + y == y;
    } else {
      assert (x + y)[0] == x[0] && (x + y)[1..] == x[1..] + y;
      NumberedFromConcat(x[1..], y, n + 1);
    }
  }

  /** array_merge never produces two entries with the same key. */
  lemma MergeUnique<V>(a: Entries<V>, b: Entries<V>)
    ensures UniqueKeys(Merge(a, b))
  {
    AppendAllUnique([], a, 0);
    AppendAllIntKeysBelow([], a, 0);
    AppendAllUnique(AppendAll([], a, 0), b, |IntValues(a)|);
  }

  /** array_merge on string keys: a key of the second array wins, any other
      key keeps its value from the first. */
  lemma MergeStringKeys<V>(a: Entries<V>, b: Entries<V>, s: string)
    requires UniqueKeys(a) && UniqueKeys(b)
    ensures Get(Merge(a, b), StrKey(s))
         == if HasKey(b, StrKey(s)) then Get(b, StrKey(s)) else Get(a, StrKey(s))
  {
    AppendAllStringKey([], a, 0, s);
    AppendAllStringKey(AppendAll([], a, 0), b, |IntValues(a)|, s);
  }

  /** array_merge on integer keys: the values under integer keys of both
      arrays are kept, in order, and renumbered 0, 1, 2, ... */
  lemma MergeIntegerKeys<V>(a: Entries<V>, b: Entries<V>)
    ensures IntEntries(Merge(a, b)) == NumberedFrom(IntValues(a) + IntValues(b), 0)
  {
    var m := AppendAll([], a, 0);
    AppendAllIntEntries([], a, 0);
    assert IntEntries<V>([]) == [];
    assert IntEntries(m) == NumberedFrom(IntValues(a), 0);
    AppendAllIntEntries(m, b, |IntValues(a)|);
    NumberedFromConcat(IntValues(a), IntValues(b), 0);
    assert IntEntries(Merge(a, b)) == NumberedFrom(IntValues(a), 0) + NumberedFrom(IntValues(b), |IntValues(a)|);
  }
}
