/** The string operations the daemon relies on: Go's string order, and
    splitting and joining paths at '/'. Go strings are byte strings, so one
    Dafny `char` stands for one byte. */
module Strings {

  /** Go's `<` on strings: lexicographic. (Dafny's own `<` means "proper prefix".) */
  predicate Less(a: string, b: string) {
    b != [] && (a == [] || a[0] < b[0] || (a[0] == b[0] && Less(a[1..], b[1..])))
  }

  lemma {:induction false} LessTransitive(a: string, b: string, c: string)
    requires Less(a, b) && Less(b, c)
    ensures Less(a, c)
  {
    if a == [] {
    } else if a[0] == b[0] && b[0] == c[0] {
      LessTransitive(a[1..], b[1..], c[1..]);
    }
  }

  lemma {:induction false} LessIrreflexive(a: string)
    ensures !Less(a, a)
  {
    if a == [] {
    } else {
      LessIrreflexive(a[1..]);
    }
  }

  lemma {:induction false} LessTotal(a: string, b: string)
    ensures a == b || Less(a, b) || Less(b, a)
  {
    if a != [] && b != [] && a[0] == b[0] {
      LessTotal(a[1..], b[1..]);
      assert a == [a[0]] + a[1..] && b == [b[0]] + b[1..];
    }
  }

  /** The first difference decides: a smaller character, or an earlier end. */
  ghost predicate IsFirstDifference(a: string, b: string, k: nat) {
    k <= |a| && k < |b| && a[..k] == b[..k] && (k == |a| || a[k] < b[k])
  }

  lemma {:induction false} LessExact(a: string, b: string)
    ensures Less(a, b) <==> exists k: nat :: IsFirstDifference(a, b, k)
  {
    if a == [] || b == [] || a[0] != b[0] {
      if Less(a, b) {
        assert IsFirstDifference(a, b, 0);
      }
      if k: nat :| IsFirstDifference(a, b, k) {
        assert k > 0 ==> a[..k][0] == b[..k][0];
      }
    } else {
      LessExact(a[1..], b[1..]);
      if k: nat :| IsFirstDifference(a[1..], b[1..], k) {
        assert a[..k + 1] == [a[0]] + a[1..][..k] && b[..k + 1] == [b[0]] + b[1..][..k];
        assert IsFirstDifference(a, b, k + 1);
      }
      if k: nat :| IsFirstDifference(a, b, k) {
        assert k > 0;
        assert a[1..][..k - 1] == a[..k][1..] && b[1..][..k - 1] == b[..k][1..];
        assert IsFirstDifference(a[1..], b[1..], k - 1);
      }
    }
  }

  predicate HasPrefix(s: string, prefix: string) {
    prefix <= s
  }

  predicate HasSuffix(s: string, suffix: string) {
    |suffix| <= |s| && s[|s| - |suffix|..] == suffix
  }

  lemma {:induction false} DoubleSlash(s: string)
    ensures HasSuffix(s, "//") <==> |s| >= 2 && s[|s| - 2] == '/' && s[|s| - 1] == '/'
    ensures s == "//" <==> |s| == 2 && HasSuffix(s, "//")
  {
    if |s| >= 2 {
      assert s[|s| - 2..] == [s[|s| - 2], s[|s| - 1]];
    }
    if |s| == 2 {
      assert s[0..] == s;
    }
  }

  /** `strings.Split(s, "/")`. */
  function Split(s: string): (segments: seq<string>)
    ensures |segments| >= 1
    ensures forall i :: 0 <= i < |segments| ==> '/' !in segments[i]
  {
    if s == [] then [""]
    else
      var rest := Split(s[1..]);
      if s[0] == '/' then [""] + rest
      else [[s[0]] + rest[0]] + rest[1..]
  }

  /** `strings.Join(segments, "/")`. */
  function Join(segments: seq<string>): string
    requires |segments| >= 1
  {
    if |segments| == 1 then segments[0]
    else segments[0] + "/" + Join(segments[1..])
  }

  ghost predicate SlashFree(segments: seq<string>) {
    forall i :: 0 <= i < |segments| ==> '/' !in segments[i]
  }

  lemma {:induction false} JoinHeadChar(c: char, segments: seq<string>)
    requires |segments| >= 1
    ensures Join([[c] + segments[0]] + segments[1..]) == [c] + Join(segments)
  {
    var longer := [[c] + segments[0]] + segments[1..];
    assert longer[1..] == segments[1..];
    if |segments| > 1 {
      var tail := "/" + Join(segments[1..]);
      assert Join(segments) == segments[0] + tail;
      assert Join(longer) == ([c] + segments[0]) + tail;
    }
  }

  /** Joining undoes splitting, for every string. */
  lemma {:induction false} JoinOfSplit(s: string)
    ensures Join(Split(s)) == s
  {
    if s == [] {
    } else {
      var rest := Split(s[1..]);
      JoinOfSplit(s[1..]);
      if s[0] == '/' {
        assert ([""] + rest)[1..] == rest;
      } else {
        JoinHeadChar(s[0], rest);
      }
    }
  }

  /** Splitting undoes joining, whenever no segment holds a '/'. */
  lemma {:induction false} SplitOfJoin(segments: seq<string>)
    requires |segments| >= 1 && SlashFree(segments)
    ensures Split(Join(segments)) == segments
    decreases |Join(segments)|
  {
    var head, tail := segments[0], segments[1..];
    if head == [] {
      if tail != [] {
        assert Join(segments) == "/" + Join(tail);
        SplitOfJoin(tail);
        assert segments == [""] + tail;
      }
    } else {
      var shorter := [head[1..]] + tail;
      assert shorter[1..] == tail;
      JoinHeadChar(head[0], shorter);
      assert [head[0]] + shorter[0] == head;
      assert segments == [head] + tail;
      assert Join(segments) == [head[0]] + Join(shorter);
      SplitOfJoin(shorter);
    }
  }

  lemma {:induction false} JoinSnoc(segments: seq<string>, last: string)
    requires |segments| >= 1
    ensures Join(segments + [last]) == Join(segments) + "/" + last
  {
    var all := segments + [last];
    if |segments| == 1 {
      assert all[1..] == [last];
    } else {
      assert all[1..] == segments[1..] + [last];
      JoinSnoc(segments[1..], last);
    }
  }

  lemma {:induction false} InJoin(segments: seq<string>, c: char)
    requires |segments| >= 1 && c != '/'
    ensures c in Join(segments) <==> exists i :: 0 <= i < |segments| && c in segments[i]
  {
    if |segments| > 1 {
      var tail := segments[1..];
      InJoin(tail, c);
      if c in Join(tail) {
        var i :| 0 <= i < |tail| && c in tail[i];
        assert c in segments[i + 1];
      }
      if j :| 0 <= j < |segments| && c in segments[j] {
        assert j == 0 || c in tail[j - 1];
      }
    }
  }

  lemma {:induction false} InSplit(s: string, c: char)
    requires c != '/'
    ensures c in s <==> exists i :: 0 <= i < |Split(s)| && c in Split(s)[i]
  {
    JoinOfSplit(s);
    InJoin(Split(s), c);
  }
}
