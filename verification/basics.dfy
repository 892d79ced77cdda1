/** Small failure-compatible wrappers and string helpers shared by both
    generations of the interpreter. Nothing here belongs to either
    generation's data model. */
module Basics {

  datatype Option<+T> = None | Some(value: T)

  datatype Result<+T, +E> = Ok(value: T) | Err(error: E)

  /** A loop whose every step reads the next element `ss[k]`, moving from
      position `cs[k]` to `cs[k + 1]`, comes out the same after all the
      steps as after none: the elements read are appended to `done` in
      order. */
  lemma {:induction false} StepsCompose<S, C, R>(f: (seq<S>, C) -> R, done: seq<S>, ss: seq<S>, cs: seq<C>)
    requires |cs| == |ss| + 1
    requires forall k, d :: 0 <= k < |ss| ==> f(d, cs[k]) == f(d + [ss[k]], cs[k + 1])
    ensures f(done, cs[0]) == f(done + ss, cs[|ss|])
    decreases |ss|
  {
    if |ss| == 0 {
      assert done + ss == done;
    } else {
      var rest, next := ss[1..], cs[1..];
      assert forall k, d :: 0 <= k < |rest| ==> f(d, next[k]) == f(d + [rest[k]], next[k + 1]) by {
        forall k, d | 0 <= k < |rest| ensures f(d, next[k]) == f(d + [rest[k]], next[k + 1]) {
          assert f(d, cs[k + 1]) == f(d + [ss[k + 1]], cs[k + 2]);
        }
      }
      StepsCompose(f, done + [ss[0]], rest, next);
      assert f(done, cs[0]) == f(done + [ss[0]], cs[1]);
      assert (done + [ss[0]]) + rest == done + ss;
    }
  }

  /** `parts` joined with `sep` between consecutive elements. */
  function Join(parts: seq<string>, sep: string): string
  {
    if |parts| == 0 then ""
    else if |parts| == 1 then parts[0]
    else parts[0] + sep + Join(parts[1..], sep)
  }

  /** Appending one more part extends the joined text by the separator and
      that part. */
  lemma {:induction false} JoinSnoc(parts: seq<string>, last: string, sep: string)
    requires |parts| > 0
    ensures Join(parts + [last], sep) == Join(parts, sep) + sep + last
    decreases |parts|
  {
    if |parts| == 1 {
      assert parts + [last] == [parts[0], last];
      assert [parts[0], last][1..] == [last];
    } else {
      assert (parts + [last])[1..] == parts[1..] + [last];
      JoinSnoc(parts[1..], last, sep);
    }
  }

  /** Reference definition of lookup in a chain of scopes, innermost
      first: the position of the innermost map binding `id`, if any map
      does. */
  function Nearest<V>(chain: seq<map<string, V>>, id: string): (r: Option<nat>)
    ensures r.Some? ==> r.value < |chain| && id in chain[r.value]
    ensures r.Some? ==> forall k :: 0 <= k < r.value ==> id !in chain[k]
    ensures r.None? ==> forall k :: 0 <= k < |chain| ==> id !in chain[k]
  {
    if |chain| == 0 then None
    else if id in chain[0] then Some(0)
    else match Nearest(chain[1..], id)
      case None => None
      case Some(i) => Some(i + 1)
  }

  /** Two chains of equal length that agree on whether each map binds
      `id` find the same nearest map. */
  lemma {:induction false} NearestAgrees<V>(a: seq<map<string, V>>, b: seq<map<string, V>>, id: string)
    requires |a| == |b|
    requires forall k :: 0 <= k < |a| ==> (id in a[k] <==> id in b[k])
    ensures Nearest(a, id) == Nearest(b, id)
    decreases |a|
  {
    if |a| > 0 && id !in a[0] {
      NearestAgrees(a[1..], b[1..], id);
    }
  }

  /** Number of occurrences of `c` in `s`. */
  function Count(s: string, c: char): nat
  {
    if |s| == 0 then 0 else (if s[0] == c then 1 else 0) + Count(s[1..], c)
  }

  lemma {:induction false} CountConcat(a: string, b: string, c: char)
    ensures Count(a + b, c) == Count(a, c) + Count(b, c)
    decreases |a|
  {
    if |a| == 0 {
      assert a + b == b;
    } else {
      assert (a + b)[1..] == a[1..] + b;
      CountConcat(a[1..], b, c);
    }
  }

  /** Counting over a slice splits at any intermediate index. */
  lemma CountSplit(s: string, i: nat, j: nat, k: nat, c: char)
    requires i <= j <= k <= |s|
    ensures Count(s[i..k], c) == Count(s[i..j], c) + Count(s[j..k], c)
  {
    assert s[i..k] == s[i..j] + s[j..k];
    CountConcat(s[i..j], s[j..k], c);
  }

  /** The decimal digit for `d`. */
  function DigitChar(d: nat): char
    requires d < 10
  {
    ['0', '1', '2', '3', '4', '5', '6', '7', '8', '9'][d]
  }

  /** Decimal text of a natural number, as the host's integer formatting
      prints it: no sign, no leading zeros. */
  function NatText(n: nat): (s: string)
    ensures |s| > 0 && (|s| > 1 ==> s[0] != '0')
    ensures forall i :: 0 <= i < |s| ==> '0' <= s[i] <= '9'
    decreases n
  {
    if n < 10 then [DigitChar(n)] else NatText(n / 10) + [DigitChar(n % 10)]
  }

  /** The number a string of decimal digits denotes. */
  function DecimalValue(s: string): nat
    requires forall i :: 0 <= i < |s| ==> '0' <= s[i] <= '9'
  {
    if |s| == 0 then 0 else 10 * DecimalValue(s[..|s| - 1]) + (s[|s| - 1] as int - '0' as int)
  }

  /** Reading the printed digits back gives the number. */
  lemma {:induction false} NatTextValue(n: nat)
    ensures DecimalValue(NatText(n)) == n
    decreases n
  {
    var s := NatText(n);
    if n >= 10 {
      NatTextValue(n / 10);
      assert s[..|s| - 1] == NatText(n / 10);
    }
  }
}
