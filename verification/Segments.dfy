/** Backslash-separated strings and their segments. */
module Segments {

  const SEP := '\\'

  function Split(s: string): (r: seq<string>)
    ensures r != []
  {
    if s == "" then [""]
    else
      var rest := Split(s[1..]);
      if s[0] == SEP then [""] + rest else [[s[0]] + rest[0]] + rest[1..]
  }

  function Join(segs: seq<string>): string {
    if segs == [] then ""
    else if |segs| == 1 then segs[0]
    else segs[0] + [SEP] + Join(segs[1..])
  }

  ghost predicate Plain(segs: seq<string>) {
    forall x :: x in segs ==> SEP !in x
  }

  lemma {:induction false} SplitPlain(s: string)
    ensures Plain(Split(s))
    decreases |s|
  {
    if s != "" {
      SplitPlain(s[1..]);
      var rest := Split(s[1..]);
      assert rest == [rest[0]] + rest[1..];
    }
  }

  /** One more character before a list of segments. */
  function Prepend(c: char, segs: seq<string>): (r: seq<string>)
    requires segs != []
    ensures r != []
  {
    if c == SEP then [""] + segs else [[c] + segs[0]] + segs[1..]
  }

  lemma SplitCons(c: char, s: string)
    ensures Split([c] + s) == Prepend(c, Split(s))
  {
    assert ([c] + s)[1..] == s;
  }

  lemma PrependConcat(c: char, a: seq<string>, b: seq<string>)
    requires a != []
    ensures Prepend(c, a + b) == Prepend(c, a) + b
  {
    assert (a + b)[1..] == a[1..] + b;
  }

  lemma {:induction false} SplitConcat(a: string, b: string)
    ensures Split(a + [SEP] + b) == Split(a) + Split(b)
    decreases |a|
  {
    if a == "" {
      assert a + [SEP] + b == [SEP] + b;
      SplitCons(SEP, b);
    } else {
      var more := a[1..];
      SplitConcat(more, b);
      assert a + [SEP] + b == [a[0]] + (more + [SEP] + b);
      SplitCons(a[0], more + [SEP] + b);
      assert a == [a[0]] + more;
      SplitCons(a[0], more);
      PrependConcat(a[0], Split(more), Split(b));
    }
  }

  lemma {:induction false} SplitOne(x: string)
    requires SEP !in x
    ensures Split(x) == [x]
    decreases |x|
  {
    if x != "" {
      assert x[0] in x && forall c :: c in x[1..] ==> c in x;
      SplitOne(x[1..]);
      assert x == [x[0]] + x[1..];
    }
  }

  lemma {:induction false} SplitJoin(segs: seq<string>)
    requires segs != [] && Plain(segs)
    ensures Split(Join(segs)) == segs
    decreases |segs|
  {
    assert segs[0] in segs;
    SplitOne(segs[0]);
    if |segs| > 1 {
      SplitJoin(segs[1..]);
      SplitConcat(segs[0], Join(segs[1..]));
      assert segs == [segs[0]] + segs[1..];
    }
  }

  lemma {:induction false} JoinConcat(a: seq<string>, b: seq<string>)
    requires a != [] && b != []
    ensures Join(a + b) == Join(a) + [SEP] + Join(b)
    decreases |a|
  {
    assert (a + b)[1..] == a[1..] + b && (a + b)[0] == a[0];
    if |a| > 1 { JoinConcat(a[1..], b); }
  }

  lemma {:induction false} JoinSplit(s: string)
    ensures Join(Split(s)) == s
    decreases |s|
  {
    if s != "" {
      JoinSplit(s[1..]);
      var rest := Split(s[1..]);
      if s[0] == SEP {
        JoinConcat([""], rest);
        assert s == [SEP] + s[1..];
      } else {
        JoinFirst(s[0], rest);
        assert s == [s[0]] + s[1..];
      }
    }
  }

  lemma JoinFirst(c: char, rest: seq<string>)
    requires rest != []
    ensures Join([[c] + rest[0]] + rest[1..]) == [c] + Join(rest)
  {
    var segs := [[c] + rest[0]] + rest[1..];
    assert segs[1..] == rest[1..];
  }

  /** Two strings are equal, or one continues the other behind a separator, exactly when the
      segments of one are a prefix of the segments of the other. */
  lemma PrefixBySegments(a: string, b: string)
    ensures a == b || a + [SEP] <= b <==> Split(a) <= Split(b)
  {
    if a + [SEP] <= b {
      var c := b[|a| + 1..];
      assert b == a + [SEP] + c;
      SplitConcat(a, c);
    }
    if Split(a) <= Split(b) {
      var rest := Split(b)[|Split(a)|..];
      assert Split(b) == Split(a) + rest;
      JoinSplit(a);
      JoinSplit(b);
      if rest == [] {
        assert Split(b) == Split(a);
      } else {
        JoinConcat(Split(a), rest);
        assert b[..|a| + 1] == a + [SEP];
      }
    }
  }

  /** Joining puts one backslash between any two segments. */
  lemma JoinLast(segs: seq<string>, last: string)
    requires segs != []
    ensures Join(segs + [last]) == Join(segs) + "\\" + last && Join([last]) == last
  {
    JoinConcat(segs, [last]);
  }

  /** Splitting cuts at every backslash and at nothing else. */
  lemma SplitExactly(s: string)
    ensures Join(Split(s)) == s && forall x :: x in Split(s) ==> '\\' !in x
  {
    JoinSplit(s);
    SplitPlain(s);
  }

  // ---------- Case ----------

  function LowerChar(c: char): char {
    if 'A' <= c <= 'Z' then c - 'A' + 'a' else c
  }

  function Lower(s: string): (r: string)
    ensures |r| == |s| && forall i :: 0 <= i < |s| ==> r[i] == LowerChar(s[i])
  {
    seq(|s|, i requires 0 <= i < |s| => LowerChar(s[i]))
  }

  function LowerAll(segs: seq<string>): (r: seq<string>)
    ensures |r| == |segs| && forall i :: 0 <= i < |segs| ==> r[i] == Lower(segs[i])
  {
    seq(|segs|, i requires 0 <= i < |segs| => Lower(segs[i]))
  }

  /** Two characters are alike exactly if they are the same, or the two cases of one ASCII letter. */
  lemma LowerAlike(c: char, d: char)
    ensures LowerChar(c) == LowerChar(d) <==>
            || c == d
            || (65 <= c as int <= 90 && d as int == c as int + 32)
            || (65 <= d as int <= 90 && c as int == d as int + 32)
  {}

  lemma {:induction false} LowerSplit(s: string)
    ensures Split(Lower(s)) == LowerAll(Split(s))
    decreases |s|
  {
    if s != "" {
      LowerSplit(s[1..]);
      assert Lower(s)[1..] == Lower(s[1..]);
      var rest := Split(s[1..]);
      if s[0] != SEP {
        assert Lower([s[0]] + rest[0]) == [LowerChar(s[0])] + Lower(rest[0]);
      }
    }
  }
}
