/**
 The few `str` operations the meminfo parser relies on, over `string`:
 `strip(c)`, `split(c)` for a one-character separator, `replace` of one
 character by another and ASCII `lower()`.
 */
module Text {

  /** `s.lstrip(c)`: drop every leading `c`. */
  function TrimStart(s: string, c: char): (r: string)
    ensures |r| <= |s| && r == s[|s| - |r|..]
    ensures forall k :: 0 <= k < |s| - |r| ==> s[k] == c
    ensures |r| > 0 ==> r[0] != c
    decreases |s|
  {
    if |s| > 0 && s[0] == c then TrimStart(s[1..], c) else s
  }

  /** `s.rstrip(c)`: drop every trailing `c`. */
  function TrimEnd(s: string, c: char): (r: string)
    ensures |r| <= |s| && r == s[..|r|]
    ensures forall k :: |r| <= k < |s| ==> s[k] == c
    ensures |r| > 0 ==> r[|r| - 1] != c
    decreases |s|
  {
    if |s| > 0 && s[|s| - 1] == c then TrimEnd(s[..|s| - 1], c) else s
  }

  /** `s.strip(c)`: drop every leading and every trailing `c`. */
  function Strip(s: string, c: char): (r: string)
    ensures |r| <= |s|
    ensures |r| > 0 ==> r[0] != c && r[|r| - 1] != c
    ensures forall x :: x in r ==> x in s
  {
    var t := TrimStart(s, c);
    var r := TrimEnd(t, c);
    assert forall x :: x in r ==> x in t;
    r
  }

  /** Inverse of `Split`: the pieces glued back together with `c` between them (`c.join(ps)`). */
  function Join(ps: seq<string>, c: char): string
    requires |ps| >= 1
    decreases |ps|
  {
    if |ps| == 1 then ps[0] else ps[0] + [c] + Join(ps[1..], c)
  }

  /**
   `s.split(c)`: the pieces of `s` between the occurrences of `c`, empty
   pieces included, so an empty `s` gives one empty piece.
   */
  function Split(s: string, c: char): (r: seq<string>)
    ensures |r| >= 1
    ensures forall i :: 0 <= i < |r| ==> c !in r[i]
    decreases |s|
  {
    if |s| == 0 then [""]
    else
      var rest := Split(s[1..], c);
      if s[0] == c then [""] + rest
      else [[s[0]] + rest[0]] + rest[1..]
  }

  /** Gluing the pieces back together with `c` gives the original string. */
  lemma {:induction false} JoinSplit(s: string, c: char)
    ensures Join(Split(s, c), c) == s
    decreases |s|
  {
    if |s| > 0 {
      var rest := Split(s[1..], c);
      JoinSplit(s[1..], c);
      var r := Split(s, c);
      if s[0] == c {
        assert r[1..] == rest;
      } else {
        if |rest| > 1 {
          assert r[1..] == rest[1..];
        }
      }
    }
  }

  /** `Split` recovers the pieces `Join` glued together, as long as no piece holds the separator. */
  lemma {:induction false} SplitJoin(ps: seq<string>, c: char)
    requires |ps| >= 1
    requires forall i :: 0 <= i < |ps| ==> c !in ps[i]
    ensures Split(Join(ps, c), c) == ps
    decreases |ps|
  {
    if |ps| == 1 {
      SplitWithout(ps[0], c);
    } else {
      SplitJoin(ps[1..], c);
      SplitAfter(ps[0], c, Join(ps[1..], c));
      assert ps == [ps[0]] + ps[1..];
    }
  }

  /** A string without the separator is a single piece. */
  lemma {:induction false} SplitWithout(s: string, c: char)
    requires c !in s
    ensures Split(s, c) == [s]
    decreases |s|
  {
    if |s| > 0 {
      SplitWithout(s[1..], c);
      assert [s[0]] + s[1..] == s;
    }
  }

  /** A separator-free prefix followed by a separator becomes the first piece. */
  lemma {:induction false} SplitAfter(a: string, c: char, b: string)
    requires c !in a
    ensures Split(a + [c] + b, c) == [a] + Split(b, c)
    decreases |a|
  {
    if |a| == 0 {
      assert a + [c] + b == [c] + b;
      assert ([c] + b)[1..] == b;
    } else {
      SplitAfter(a[1..], c, b);
      assert (a + [c] + b)[1..] == a[1..] + [c] + b;
      assert [a[0]] + a[1..] == a;
    }
  }

  /** Leading run of `c` followed by a string that does not start with `c`. */
  lemma {:induction false} TrimStartPad(pad: string, x: string, c: char)
    requires forall k :: 0 <= k < |pad| ==> pad[k] == c
    requires |x| > 0 ==> x[0] != c
    ensures TrimStart(pad + x, c) == x
    decreases |pad|
  {
    if |pad| > 0 {
      assert (pad + x)[1..] == pad[1..] + x;
      TrimStartPad(pad[1..], x, c);
    } else {
      assert pad + x == x;
    }
  }

  /** A string that does not end with `c` followed by a trailing run of `c`. */
  lemma {:induction false} TrimEndPad(x: string, pad: string, c: char)
    requires forall k :: 0 <= k < |pad| ==> pad[k] == c
    requires |x| > 0 ==> x[|x| - 1] != c
    ensures TrimEnd(x + pad, c) == x
    decreases |pad|
  {
    if |pad| > 0 {
      var p := pad[..|pad| - 1];
      assert (x + pad)[..|x + pad| - 1] == x + p;
      TrimEndPad(x, p, c);
    } else {
      assert x + pad == x;
    }
  }

  /** `Strip` removes exactly the padding around a core that neither starts nor ends with `c`. */
  lemma StripPadded(front: string, x: string, back: string, c: char)
    requires forall k :: 0 <= k < |front| ==> front[k] == c
    requires forall k :: 0 <= k < |back| ==> back[k] == c
    requires |x| > 0 ==> x[0] != c && x[|x| - 1] != c
    ensures Strip(front + x + back, c) == x
  {
    if |x| > 0 {
      assert front + x + back == front + (x + back);
      assert (x + back)[0] == x[0];
      TrimStartPad(front, x + back, c);
      TrimEndPad(x, back, c);
    } else {
      var pad := front + back;
      assert forall k :: 0 <= k < |pad| ==> pad[k] == c;
      assert front + x + back == pad + x;
      TrimStartPad(pad, x, c);
    }
  }

  /** ASCII `lower()` of one character. */
  function LowerChar(c: char): char
  {
    if 'A' <= c <= 'Z' then (c as int - 'A' as int + 'a' as int) as char else c
  }

  predicate IsUpper(c: char)
  {
    'A' <= c <= 'Z'
  }

  /** ASCII `s.lower()`. */
  function Lower(s: string): (r: string)
    ensures |r| == |s|
    ensures forall i :: 0 <= i < |r| ==> r[i] == LowerChar(s[i]) && !IsUpper(r[i])
  {
    seq(|s|, i requires 0 <= i < |s| => LowerChar(s[i]))
  }

  /** `s.replace(x, y)` for single characters `x` and `y`. */
  function Replace(s: string, x: char, y: char): (r: string)
    ensures |r| == |s|
    ensures x != y ==> x !in r
    ensures forall i :: 0 <= i < |s| && s[i] == x ==> r[i] == y
    ensures forall i :: 0 <= i < |s| && s[i] != x ==> r[i] == s[i]
  {
    seq(|s|, i requires 0 <= i < |s| => if s[i] == x then y else s[i])
  }
}
