/** Slash-delimited paths: `split('/')`, `join('/')` and the array
    queries the path codec uses (`includes`, `indexOf`). */
module Paths {

  /** A path segment that can be embedded in a path without changing its shape. */
  predicate Plain(s: string) {
    '/' !in s
  }

  predicate AllPlain(parts: seq<string>) {
    forall i :: 0 <= i < |parts| ==> Plain(parts[i])
  }

  /** `s.split('/')`: the pieces between slashes. Never empty; `"".split('/')` is `[""]`. */
  function Split(s: string): (parts: seq<string>)
    ensures |parts| >= 1
    ensures AllPlain(parts)
    decreases |s|
  {
    if s == [] then [""]
    else
      var rest := Split(s[1..]);
      if s[0] == '/' then [""] + rest
      else [[s[0]] + rest[0]] + rest[1..]
  }

  /** `parts.join('/')`. */
  function Join(parts: seq<string>): string
    decreases |parts|
  {
    if |parts| == 0 then ""
    else if |parts| == 1 then parts[0]
    else parts[0] + "/" + Join(parts[1..])
  }

  /** Joining what was split gives back the original string. */
  lemma {:induction false} JoinSplit(s: string)
    ensures Join(Split(s)) == s
    decreases |s|
  {
    if s != [] {
      var rest := Split(s[1..]);
      JoinSplit(s[1..]);
      if s[0] == '/' {
        assert Split(s) == [""] + rest;
        assert ([""] + rest)[1..] == rest;
      } else {
        var parts := [[s[0]] + rest[0]] + rest[1..];
        assert Split(s) == parts;
        if |rest| == 1 {
          assert Join(parts) == [s[0]] + rest[0];
        } else {
          assert parts[1..] == rest[1..];
          assert Join(rest) == rest[0] + "/" + Join(rest[1..]);
          assert Join(parts) == [s[0]] + rest[0] + "/" + Join(rest[1..]);
        }
        assert s == [s[0]] + s[1..];
      }
    }
  }

  /** Splitting a string that starts with a slash-free prefix. */
  lemma {:induction false} SplitPlainPrefix(a: string, t: string)
    requires Plain(a)
    ensures Split(a + t) == [a + Split(t)[0]] + Split(t)[1..]
    decreases |a|
  {
    if a != [] {
      SplitPlainPrefix(a[1..], t);
      assert (a + t)[1..] == a[1..] + t;
      assert (a + t)[0] == a[0];
      assert [a[0]] + (a[1..] + Split(t)[0]) == a + Split(t)[0];
    } else {
      var parts := Split(t);
      assert a + t == t && a + parts[0] == parts[0];
      assert parts == [parts[0]] + parts[1..];
    }
  }

  /** Splitting what was joined gives back the segments, provided none holds a slash. */
  lemma {:induction false} SplitJoin(parts: seq<string>)
    requires |parts| >= 1 && AllPlain(parts)
    ensures Split(Join(parts)) == parts
    decreases |parts|
  {
    if |parts| == 1 {
      SplitPlainPrefix(parts[0], "");
      assert parts[0] + "" == parts[0];
    } else {
      var tail := Join(parts[1..]);
      SplitJoin(parts[1..]);
      assert Join(parts) == parts[0] + ("/" + tail);
      SplitPlainPrefix(parts[0], "/" + tail);
      assert ("/" + tail)[1..] == tail;
      assert Split("/" + tail) == [""] + Split(tail);
      assert parts[0] + "" == parts[0];
      assert parts == [parts[0]] + parts[1..];
    }
  }

  /** Joining two runs of segments puts one slash between them. */
  lemma {:induction false} JoinConcat(p: seq<string>, q: seq<string>)
    requires |p| >= 1 && |q| >= 1
    ensures Join(p + q) == Join(p) + "/" + Join(q)
    decreases |p|
  {
    if |p| == 1 {
      assert (p + q)[1..] == q;
    } else {
      JoinConcat(p[1..], q);
      assert (p + q)[1..] == p[1..] + q;
    }
  }

  /** A slash between two strings separates their segments. */
  lemma SplitConcat(a: string, b: string)
    ensures Split(a + "/" + b) == Split(a) + Split(b)
  {
    JoinSplit(a);
    JoinSplit(b);
    JoinConcat(Split(a), Split(b));
    var both := Split(a) + Split(b);
    assert AllPlain(both) by {
      forall i | 0 <= i < |both| ensures Plain(both[i]) {
        if i < |Split(a)| { assert both[i] == Split(a)[i]; }
        else { assert both[i] == Split(b)[i - |Split(a)|]; }
      }
    }
    SplitJoin(both);
  }

  /** `parts.indexOf(x)`: the first position of `x`, or -1. */
  function IndexOf(parts: seq<string>, x: string): (i: int)
    ensures -1 <= i < |parts|
    ensures i == -1 <==> x !in parts
    ensures 0 <= i ==> parts[i] == x && x !in parts[..i]
    decreases |parts|
  {
    if |parts| == 0 then -1
    else if parts[0] == x then 0
    else
      var j := IndexOf(parts[1..], x);
      assert parts == [parts[0]] + parts[1..];
      if j == -1 then -1
      else
        assert parts[..j + 1] == [parts[0]] + parts[1..][..j];
        j + 1
  }

  /** All but the last segment, as `parts.slice(0, -1)`. */
  function Init(parts: seq<string>): seq<string>
    requires |parts| >= 1
  {
    parts[..|parts| - 1]
  }

  /** The segments before the last, then the last, are all the segments. */
  lemma InitLast(parts: seq<string>)
    requires |parts| >= 1
    ensures parts == Init(parts) + [Last(parts)]
  {
  }

  /** `parts[parts.length - 1]`. */
  function Last(parts: seq<string>): string
    requires |parts| >= 1
  {
    parts[|parts| - 1]
  }

  /** Appending a plain segment to a path with `${path}/${id}` adds exactly one segment. */
  lemma AppendSegment(path: string, id: string)
    requires Plain(id)
    ensures Split(path + "/" + id) == Split(path) + [id]
  {
    var parts := Split(path);
    JoinSplit(path);
    SplitJoin(parts + [id]);
    JoinAppend(parts, id);
  }

  lemma {:induction false} JoinAppend(parts: seq<string>, id: string)
    requires |parts| >= 1
    ensures Join(parts + [id]) == Join(parts) + "/" + id
    decreases |parts|
  {
    if |parts| == 1 {
      assert parts + [id] == [parts[0], id];
    } else {
      JoinAppend(parts[1..], id);
      assert (parts + [id])[1..] == parts[1..] + [id];
    }
  }

  /** The address of a document: its last segment is the key and the others
      the collection, and `${collection}/${key}` restores the path. */
  lemma DocumentPathParts(path: string)
    ensures var parts := Split(path);
      |parts| >= 2 ==> Join(Init(parts)) + "/" + Last(parts) == path
  {
    var parts := Split(path);
    JoinSplit(path);
    if |parts| >= 2 {
      InitLast(parts);
      JoinAppend(Init(parts), Last(parts));
    }
  }
}
