/** Shared vocabulary: optional values, store reads, and the JavaScript string
    operations the services rely on (startsWith, includes, split(':'), join(':'),
    indexOf, and the `substring(length - 12)` idiom used for short stage ids). */
module Common {

  datatype Option<+T> = None | Some(value: T)

  /** Outcome of reading a JSON record from the store: nothing usable is there
      (the caller sees `null`), the text parses to a record of the expected
      kind, or the read throws (JSON.parse fails, or the key holds a set). */
  datatype Read<+T> = Absent | Parsed(value: T) | Corrupt

  /** JavaScript truthiness of an optional string: `undefined` and "" are falsy. */
  predicate Present(o: Option<string>) {
    o.Some? && o.value != ""
  }

  predicate StartsWith(s: string, p: string) {
    |p| <= |s| && s[..|p|] == p
  }

  predicate EndsWith(s: string, p: string) {
    |p| <= |s| && s[|s| - |p|..] == p
  }

  /** `s.includes(t)`. */
  predicate Contains(s: string, t: string)
    decreases |s|
  {
    StartsWith(s, t) || (|s| > 0 && Contains(s[1..], t))
  }

  lemma {:induction false} ContainsAt(s: string, t: string, i: nat)
    requires i + |t| <= |s| && s[i..i + |t|] == t
    ensures Contains(s, t)
    decreases i
  {
    if i == 0 {
      assert s[..|t|] == t;
    } else {
      assert s[1..][i - 1..i - 1 + |t|] == s[i..i + |t|];
      ContainsAt(s[1..], t, i - 1);
    }
  }

  lemma ContainsInfix(a: string, b: string, c: string)
    ensures Contains(a + b + c, b)
  {
    var s := a + b + c;
    assert s[|a|..|a| + |b|] == b;
    ContainsAt(s, b, |a|);
  }

  /** A string that contains t has an occurrence of t at some index. */
  lemma {:induction false} ContainsWitness(s: string, t: string) returns (i: nat)
    requires Contains(s, t)
    ensures i + |t| <= |s| && s[i..i + |t|] == t
    decreases |s|
  {
    if StartsWith(s, t) {
      i := 0;
    } else {
      var j := ContainsWitness(s[1..], t);
      i := j + 1;
      assert s[i..i + |t|] == s[1..][j..j + |t|];
    }
  }

  /** No character of s is c. */
  predicate CharFree(s: string, c: char) {
    forall i :: 0 <= i < |s| ==> s[i] != c
  }

  lemma CharFreeConcat(a: string, b: string, c: char)
    requires CharFree(a, c) && CharFree(b, c)
    ensures CharFree(a + b, c)
  {
    forall i | 0 <= i < |a + b|
      ensures (a + b)[i] != c
    {
      if i < |a| {
        assert (a + b)[i] == a[i];
      } else {
        assert (a + b)[i] == b[i - |a|];
      }
    }
  }

  /** A string lacking one of t's characters does not contain t. */
  lemma {:induction false} NotContainsChar(s: string, t: string, k: nat)
    requires k < |t|
    requires CharFree(s, t[k])
    ensures !Contains(s, t)
    decreases |s|
  {
    if |t| <= |s| {
      assert s[..|t|][k] != t[k];
    }
    if |s| > 0 {
      NotContainsChar(s[1..], t, k);
    }
  }

  /** `s.substring(s.length - 12)`: the last twelve characters, or all of s
      when it is shorter (a negative start is clamped to 0). */
  function Last12(s: string): (r: string)
    ensures |r| == if |s| >= 12 then 12 else |s|
    ensures EndsWith(s, r)
  {
    if |s| >= 12 then s[|s| - 12..] else s
  }

  lemma Last12Within(s: string)
    ensures Contains(s, Last12(s))
  {
    var r := Last12(s);
    assert s[|s| - |r|..|s| - |r| + |r|] == r;
    ContainsAt(s, r, |s| - |r|);
  }

  predicate NoDups<T(==)>(s: seq<T>) {
    forall i, j :: 0 <= i < j < |s| ==> s[i] != s[j]
  }

  predicate ColonFree(s: string) {
    forall i :: 0 <= i < |s| ==> s[i] != ':'
  }

  /** `s.split(':')`. */
  function Split(s: string): (r: seq<string>)
    ensures |r| >= 1
    ensures forall i :: 0 <= i < |r| ==> ColonFree(r[i])
  {
    if |s| == 0 then [""]
    else if s[0] == ':' then [""] + Split(s[1..])
    else
      var rest := Split(s[1..]);
      [[s[0]] + rest[0]] + rest[1..]
  }

  /** `parts.join(':')`; `[].join(':')` is "". */
  function Join(parts: seq<string>): string {
    if |parts| == 0 then ""
    else if |parts| == 1 then parts[0]
    else parts[0] + ":" + Join(parts[1..])
  }

  lemma {:induction false} JoinSplit(s: string)
    ensures Join(Split(s)) == s
    decreases |s|
  {
    if |s| == 0 {
    } else if s[0] == ':' {
      JoinSplit(s[1..]);
      assert [""] + Split(s[1..]) == Split(s);
      assert s == "" + ":" + s[1..];
    } else {
      JoinSplit(s[1..]);
      var rest := Split(s[1..]);
      if |rest| == 1 {
        assert Split(s) == [[s[0]] + rest[0]];
      } else {
        assert Split(s)[1..] == rest[1..];
        assert Join(rest) == rest[0] + ":" + Join(rest[1..]);
      }
    }
  }

  /** Splitting a colon-free string followed by ":" and a rest. */
  lemma {:induction false} SplitCons(a: string, rest: string)
    requires ColonFree(a)
    ensures Split(a + ":" + rest) == [a] + Split(rest)
    decreases |a|
  {
    if |a| == 0 {
      assert a + ":" + rest == [':'] + rest;
      assert (a + ":" + rest)[1..] == rest;
    } else {
      SplitCons(a[1..], rest);
      assert (a + ":" + rest)[1..] == a[1..] + ":" + rest;
      assert [a[0]] + a[1..] == a;
    }
  }

  lemma {:induction false} SplitSingle(a: string)
    requires ColonFree(a)
    ensures Split(a) == [a]
    decreases |a|
  {
    if |a| > 0 {
      SplitSingle(a[1..]);
      assert [a[0]] + a[1..] == a;
    }
  }

  lemma {:induction false} SplitJoin(parts: seq<string>)
    requires |parts| >= 1
    requires forall i :: 0 <= i < |parts| ==> ColonFree(parts[i])
    ensures Split(Join(parts)) == parts
    decreases |parts|
  {
    if |parts| == 1 {
      SplitSingle(parts[0]);
    } else {
      SplitJoin(parts[1..]);
      SplitCons(parts[0], Join(parts[1..]));
      assert [parts[0]] + parts[1..] == parts;
    }
  }

  lemma {:induction false} JoinAppend(a: seq<string>, b: seq<string>)
    requires |a| >= 1 && |b| >= 1
    ensures Join(a + b) == Join(a) + ":" + Join(b)
    decreases |a|
  {
    if |a| == 1 {
      assert (a + b)[1..] == b;
    } else {
      JoinAppend(a[1..], b);
      assert (a + b)[1..] == a[1..] + b;
    }
  }

  /** `parts.indexOf(x)`: the first index holding x, or -1. */
  function IndexOf(parts: seq<string>, x: string): (r: int)
    ensures -1 <= r < |parts|
    ensures r == -1 <==> x !in parts
    ensures r >= 0 ==> parts[r] == x && x !in parts[..r]
  {
    if |parts| == 0 then -1
    else if parts[0] == x then 0
    else
      var k := IndexOf(parts[1..], x);
      assert k >= 0 ==> parts[1..][..k] == parts[1..k + 1];
      if k == -1 then -1 else k + 1
  }

  /** The first occurrence of x is at i when x sits at i and nowhere before. */
  lemma IndexOfAt(parts: seq<string>, x: string, i: nat)
    requires i < |parts| && parts[i] == x && x !in parts[..i]
    ensures IndexOf(parts, x) == i
  {
  }

  /** A subset is no larger than its superset. */
  lemma {:induction false} SubsetSize<T>(a: set<T>, b: set<T>)
    requires a <= b
    ensures |a| <= |b|
    decreases |a|
  {
    if a != {} {
      var x :| x in a;
      SubsetSize(a - {x}, b - {x});
    }
  }

  /** A subset as large as its superset is the whole of it. */
  lemma SubsetSameSize<T>(a: set<T>, b: set<T>)
    requires a <= b && |a| == |b|
    ensures a == b
  {
    if a != b {
      var x :| x in b && x !in a;
      SubsetSize(a, b - {x});
    }
  }

  function Sum(xs: seq<nat>): nat {
    if |xs| == 0 then 0 else Sum(xs[..|xs| - 1]) + xs[|xs| - 1]
  }

  /** Moving one element from the pending set to the handled set keeps their union. */
  lemma MoveOne<T>(seen: set<T>, todo: set<T>, k: T)
    requires k in todo && seen !! todo
    ensures (seen + {k}) + (todo - {k}) == seen + todo
    ensures (seen + {k}) !! (todo - {k})
  {
  }

  /** Lists the elements of a finite set in some unspecified order, as the
      store's KEYS and SMEMBERS replies do. */
  method Enumerate<T>(s: set<T>) returns (r: seq<T>)
    ensures NoDups(r) && |r| == |s|
    ensures forall x :: x in r <==> x in s
  {
    r := [];
    var todo := s;
    while todo != {}
      invariant todo <= s
      invariant forall x :: x in r <==> x in s && x !in todo
      invariant NoDups(r) && |r| + |todo| == |s|
      decreases |todo|
    {
      var x :| x in todo;
      r := r + [x];
      todo := todo - {x};
    }
  }

  /** A natural number in decimal, as template strings print it. */
  function Decimal(n: nat): (s: string)
    ensures |s| > 0 && forall i :: 0 <= i < |s| ==> '0' <= s[i] <= '9'
  {
    if n < 10 then [(48 + n) as char] else Decimal(n / 10) + [(48 + n % 10) as char]
  }

  function DigitsValue(s: string): nat
    requires forall i :: 0 <= i < |s| ==> '0' <= s[i] <= '9'
  {
    if s == [] then 0 else DigitsValue(s[..|s| - 1]) * 10 + (s[|s| - 1] as int - 48)
  }

  lemma {:induction false} DecimalValue(n: nat)
    ensures DigitsValue(Decimal(n)) == n
  {
    if n >= 10 {
      DecimalValue(n / 10);
      var s := Decimal(n);
      assert s[..|s| - 1] == Decimal(n / 10);
    }
  }
}
