/** String helpers the layout and configuration code rely on. */
module Text {

  /** `s.startsWith(prefix)`. */
  predicate StartsWith(s: string, prefix: string) {
    |prefix| <= |s| && s[..|prefix|] == prefix
  }

  /** `parts.join('.')`. */
  function JoinDots(parts: seq<string>): string
    requires |parts| >= 1
  {
    if |parts| == 1 then parts[0] else parts[0] + "." + JoinDots(parts[1..])
  }

  /** `s.split('.')`: the maximal dot-free pieces of `s`, in order, one more than there are dots. */
  function SplitDots(s: string): (parts: seq<string>)
    ensures |parts| >= 1
    ensures forall i :: 0 <= i < |parts| ==> '.' !in parts[i]
  {
    if |s| == 0 then [""]
    else if s[0] == '.' then [""] + SplitDots(s[1..])
    else
      var rest := SplitDots(s[1..]);
      [[s[0]] + rest[0]] + rest[1..]
  }

  /** Splitting on dots and joining again gives back the key. */
  lemma {:induction false} JoinSplit(s: string)
    ensures JoinDots(SplitDots(s)) == s
  {
    if |s| == 0 {
    } else if s[0] == '.' {
      var rest := SplitDots(s[1..]);
      JoinSplit(s[1..]);
      assert SplitDots(s) == [""] + rest;
      assert ([""] + rest)[1..] == rest;
      assert s == "." + s[1..];
    } else {
      JoinSplit(s[1..]);
      JoinGlued(s[0], SplitDots(s[1..]));
      assert s == [s[0]] + s[1..];
    }
  }

  /** Gluing a character to the first piece puts it in front of the joined string. */
  lemma {:induction false} JoinGlued(c: char, rest: seq<string>)
    requires |rest| >= 1
    ensures JoinDots([[c] + rest[0]] + rest[1..]) == [c] + JoinDots(rest)
  {
    var parts := [[c] + rest[0]] + rest[1..];
    if |rest| > 1 {
      var head, tail := rest[0], JoinDots(rest[1..]);
      assert parts[1..] == rest[1..];
      assert JoinDots(parts) == ([c] + head) + "." + tail;
      assert JoinDots(rest) == head + "." + tail;
      assert ([c] + head) + "." + tail == [c] + (head + "." + tail);
    }
  }

  /** Different keys never split into the same path. */
  lemma {:induction false} SplitInjective(a: string, b: string)
    requires SplitDots(a) == SplitDots(b)
    ensures a == b
  {
    JoinSplit(a);
    JoinSplit(b);
  }

  /** A dot-free prefix stays glued to the first piece of what follows it. */
  lemma {:induction false} SplitDotFreePrefix(a: string, rest: string)
    requires '.' !in a
    ensures SplitDots(a + rest) == [a + SplitDots(rest)[0]] + SplitDots(rest)[1..]
  {
    var r := SplitDots(rest);
    if |a| == 0 {
      assert a + rest == rest;
      assert a + r[0] == r[0];
      assert r == [r[0]] + r[1..];
    } else {
      assert a[0] in a;
      assert '.' !in a[1..] by {
        forall i | 0 <= i < |a[1..]| ensures a[1..][i] != '.' {
          assert a[1..][i] == a[i + 1];
        }
      }
      SplitDotFreePrefix(a[1..], rest);
      assert (a + rest)[0] == a[0];
      assert (a + rest)[1..] == a[1..] + rest;
      var inner := SplitDots(a[1..] + rest);
      assert inner == [a[1..] + r[0]] + r[1..];
      assert SplitDots(a + rest) == [[a[0]] + inner[0]] + inner[1..];
      assert inner[1..] == r[1..];
      assert [a[0]] + (a[1..] + r[0]) == a + r[0];
    }
  }

  /** Joining dot-free pieces and splitting again gives back the pieces. */
  lemma {:induction false} SplitDotsOf(parts: seq<string>)
    requires |parts| >= 1
    requires forall i :: 0 <= i < |parts| ==> '.' !in parts[i]
    ensures SplitDots(JoinDots(parts)) == parts
    decreases |parts|
  {
    if |parts| == 1 {
      SplitDotFreePrefix(parts[0], "");
      assert parts[0] + "" == parts[0];
    } else {
      SplitDotsOf(parts[1..]);
      var tail := "." + JoinDots(parts[1..]);
      SplitDotFreePrefix(parts[0], tail);
      assert tail[0] == '.';
      assert tail[1..] == JoinDots(parts[1..]);
      var st := SplitDots(tail);
      assert st == [""] + parts[1..];
      assert st[0] == "" && st[1..] == parts[1..];
      assert parts[0] + st[0] == parts[0];
      assert JoinDots(parts) == parts[0] + tail;
      assert SplitDots(JoinDots(parts)) == [parts[0]] + parts[1..];
      assert parts == [parts[0]] + parts[1..];
    }
  }
}
