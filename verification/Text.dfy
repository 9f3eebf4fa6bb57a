// Splitting and joining of request text, shared by the grammar, the router and
// the identifier codec. Text is the byte string the server sees, one char per
// byte; every separator is ASCII, so cutting bytes and cutting characters agree.
module Text {
  import opened Wrappers

  function Find<T(==)>(s: seq<T>, c: T): (i: nat)
    ensures i <= |s| && c !in s[..i]
    ensures i == |s| <==> c !in s
    ensures i < |s| ==> s[i] == c
  {
    if s == [] || s[0] == c then 0 else 1 + Find(s[1..], c)
  }

  function FindLast<T(==)>(s: seq<T>, c: T): (i: nat)
    ensures i <= |s|
    ensures i == |s| <==> c !in s
    ensures i < |s| ==> s[i] == c && c !in s[i + 1..]
  {
    if s == [] then 0
    else
      var i := FindLast(s[1..], c);
      if i < |s| - 1 then i + 1 else if s[0] == c then 0 else |s|
  }

  // str::split: one part more than there are separators.
  function Split<T(==)>(s: seq<T>, c: T): (parts: seq<seq<T>>)
    ensures |parts| >= 1
    decreases |s|
  {
    var i := Find(s, c);
    if i == |s| then [s] else [s[..i]] + Split(s[i + 1..], c)
  }

  function Join<T>(parts: seq<seq<T>>, c: T): seq<T>
    requires |parts| >= 1
  {
    if |parts| == 1 then parts[0] else parts[0] + [c] + Join(parts[1..], c)
  }

  // str::split_once
  function SplitOnce<T(==)>(s: seq<T>, c: T): Option<(seq<T>, seq<T>)> {
    var i := Find(s, c);
    if i == |s| then None else Some((s[..i], s[i + 1..]))
  }

  // str::strip_prefix
  function StripPrefix(s: string, prefix: string): Option<string> {
    if prefix <= s then Some(s[|prefix|..]) else None
  }

  lemma StripOwnPrefix(prefix: string, rest: string)
    ensures StripPrefix(prefix + rest, prefix) == Some(rest)
  {
  }

  // A text that differs somewhere inside the prefix does not carry it.
  lemma StripOtherPrefix(s: string, prefix: string, at: nat)
    requires at < |prefix| && at < |s| && s[at] != prefix[at]
    ensures StripPrefix(s, prefix) == None && s != prefix
  {
  }

  // str::rsplit_once
  function RSplitOnce<T(==)>(s: seq<T>, c: T): Option<(seq<T>, seq<T>)> {
    var i := FindLast(s, c);
    if i == |s| then None else Some((s[..i], s[i + 1..]))
  }

  lemma ConcatAssoc<T>(a: seq<T>, b: seq<T>, c: seq<T>)
    ensures a + (b + c) == (a + b) + c
  {
  }

  lemma SplitOnceNone<T>(a: seq<T>, c: T)
    requires c !in a
    ensures SplitOnce(a, c) == None
  {
  }

  lemma {:induction false} FindAt<T>(s: seq<T>, c: T, k: nat)
    requires k < |s| && s[k] == c && c !in s[..k]
    ensures Find(s, c) == k
  {
    if k > 0 {
      assert s[..k][0] == s[0];
      assert s[1..][..k - 1] == s[..k][1..];
      FindAt(s[1..], c, k - 1);
    }
  }

  lemma {:induction false} FindLastAt<T>(s: seq<T>, c: T, k: nat)
    requires k < |s| && s[k] == c && c !in s[k + 1..]
    ensures FindLast(s, c) == k
  {
    if k > 0 {
      assert s[1..][k..] == s[k + 1..];
      FindLastAt(s[1..], c, k - 1);
    } else {
      assert c !in s[1..];
    }
  }

  lemma SplitOnceAt<T>(a: seq<T>, b: seq<T>, c: T)
    requires c !in a
    ensures SplitOnce(a + [c] + b, c) == Some((a, b))
  {
    var s := a + [c] + b;
    assert s[..|a|] == a && s[|a| + 1..] == b;
    FindAt(s, c, |a|);
  }

  lemma RSplitOnceAt<T>(a: seq<T>, b: seq<T>, c: T)
    requires c !in b
    ensures RSplitOnce(a + [c] + b, c) == Some((a, b))
  {
    var s := a + [c] + b;
    assert s[..|a|] == a && s[|a| + 1..] == b;
    FindLastAt(s, c, |a|);
  }

  lemma SplitStep<T>(a: seq<T>, b: seq<T>, c: T)
    requires c !in a
    ensures Split(a + [c] + b, c) == [a] + Split(b, c)
  {
    var s := a + [c] + b;
    assert s[..|a|] == a && s[|a| + 1..] == b;
    FindAt(s, c, |a|);
  }

  lemma SplitWhole<T>(a: seq<T>, c: T)
    requires c !in a
    ensures Split(a, c) == [a]
  {
    SplitOnceNone(a, c);
  }

  // Cutting undoes joining for separator-free parts ...
  lemma {:induction false} SplitJoin<T>(parts: seq<seq<T>>, c: T)
    requires |parts| >= 1
    requires forall p :: p in parts ==> c !in p
    ensures Split(Join(parts, c), c) == parts
  {
    if |parts| == 1 {
      SplitWhole(parts[0], c);
    } else {
      SplitJoin(parts[1..], c);
      SplitStep(parts[0], Join(parts[1..], c), c);
    }
  }

  // ... and joining undoes cutting for every text.
  lemma {:induction false} JoinSplit<T>(s: seq<T>, c: T)
    ensures Join(Split(s, c), c) == s
    ensures forall k :: 0 <= k < |Split(s, c)| ==> c !in Split(s, c)[k]
    decreases |s|
  {
    var i := Find(s, c);
    var parts := Split(s, c);
    if i == |s| {
      assert s[..i] == s && parts == [s];
    } else {
      var rest := Split(s[i + 1..], c);
      JoinSplit(s[i + 1..], c);
      assert parts == [s[..i]] + rest && parts[1..] == rest;
      assert s == s[..i] + [c] + s[i + 1..];
      forall k | 0 <= k < |parts|
        ensures c !in parts[k]
      {
        assert k > 0 ==> parts[k] == rest[k - 1];
      }
    }
  }
}
