/** Dotted module names, split and joined as Python's `str.split(".")` and `".".join` do. */
module DottedNames {

  ghost predicate DotFree(s: string) {
    '.' !in s
  }

  ghost predicate Plain(parts: seq<string>) {
    parts != [] && forall i :: 0 <= i < |parts| ==> DotFree(parts[i])
  }

  function Split(s: string): (parts: seq<string>)
    ensures Plain(parts)
  {
    if s == "" then
      [""]
    else
      var rest := Split(s[1..]);
      if s[0] == '.' then [""] + rest else [[s[0]] + rest[0]] + rest[1..]
  }

  function Join(parts: seq<string>): string {
    if parts == [] then ""
    else if |parts| == 1 then parts[0]
    else parts[0] + "." + Join(parts[1..])
  }

  lemma {:induction false} JoinSplit(s: string)
    ensures Join(Split(s)) == s
  {
    if s != "" {
      JoinSplit(s[1..]);
      var rest := Split(s[1..]);
      if s[0] == '.' {
        assert Split(s)[1..] == rest;
      } else if |rest| > 1 {
        assert Split(s)[1..] == rest[1..];
        assert Join(rest) == rest[0] + "." + Join(rest[1..]);
      }
    }
  }

  lemma {:induction false} SplitPlain(s: string)
    requires DotFree(s)
    ensures Split(s) == [s]
  {
    if s != "" {
      SplitPlain(s[1..]);
      assert s == [s[0]] + s[1..];
    }
  }

  lemma {:induction false} SplitDot(s: string, t: string)
    requires DotFree(s)
    ensures Split(s + "." + t) == [s] + Split(t)
  {
    if s == "" {
      assert (s + "." + t)[1..] == t;
    } else {
      SplitDot(s[1..], t);
      assert (s + "." + t)[1..] == s[1..] + "." + t;
      assert (s + "." + t)[0] == s[0] != '.';
      assert s == [s[0]] + s[1..];
      assert Split(s + "." + t) == [[s[0]] + s[1..]] + ([s[1..]] + Split(t))[1..];
    }
  }

  lemma {:induction false} SplitJoin(parts: seq<string>)
    requires Plain(parts)
    ensures Split(Join(parts)) == parts
  {
    if |parts| == 1 {
      SplitPlain(parts[0]);
    } else {
      SplitJoin(parts[1..]);
      SplitDot(parts[0], Join(parts[1..]));
    }
  }

  lemma {:induction false} JoinAppend(a: seq<string>, b: seq<string>)
    requires a != [] && b != []
    ensures Join(a + b) == Join(a) + "." + Join(b)
  {
    if |a| == 1 {
      assert (a + b)[1..] == b;
    } else {
      assert (a + b)[1..] == a[1..] + b;
      JoinAppend(a[1..], b);
    }
  }

  /** Splitting at a dot, whatever stands on its sides. */
  lemma SplitAtDot(s: string, t: string)
    ensures Split(s + "." + t) == Split(s) + Split(t)
  {
    JoinSplit(s);
    JoinSplit(t);
    JoinAppend(Split(s), Split(t));
    SplitJoin(Split(s) + Split(t));
  }

  /** The proper prefixes of a dotted name are the names that it goes on from with a dot. */
  lemma PrefixIsPackage(p: string, m: string)
    ensures (exists k :: 1 <= k < |Split(m)| && p == Join(Split(m)[..k])) <==> p + "." <= m
  {
    if k :| 1 <= k < |Split(m)| && p == Join(Split(m)[..k]) {
      var parts := Split(m);
      assert parts == parts[..k] + parts[k..];
      JoinAppend(parts[..k], parts[k..]);
      JoinSplit(m);
      assert m == p + "." + Join(parts[k..]);
    }
    if p + "." <= m {
      var t := m[|p| + 1..];
      assert m == p + "." + t;
      SplitAtDot(p, t);
      var k := |Split(p)|;
      assert Split(m)[..k] == Split(p);
      JoinSplit(p);
    }
  }
}
