/** The Python `str` built-ins that the recipe endpoint relies on, over `seq<char>`:
    `s.split(c)` for a one-character separator, `sep.join(pieces)`, `s.strip()` with
    no argument and `s.startswith(prefixes)` with a tuple. `Count` and `Replace`
    (modelled on `s.count(c)` and `s.replace(c, with)`) are not called by the endpoint;
    they serve to state properties of the others. */
module PyStr {

  /** Number of occurrences of `c` in `s` (`s.count(c)`). */
  function Count(s: string, c: char): nat
  {
    if s == [] then 0 else (if s[0] == c then 1 else 0) + Count(s[1..], c)
  }

  /** `s.split(c)`: the pieces of `s` between occurrences of `c`, in order. The empty
      string gives `[""]`, and two adjacent separators give an empty piece. */
  function Split(s: string, c: char): (r: seq<string>)
    ensures |r| >= 1
  {
    if s == [] then [""]
    else
      var rest := Split(s[1..], c);
      if s[0] == c then [""] + rest
      else [[s[0]] + rest[0]] + rest[1..]
  }

  /** `s.split(c)` has one piece more than `s` has occurrences of `c`. */
  lemma {:induction false} SplitCount(s: string, c: char)
    ensures |Split(s, c)| == Count(s, c) + 1
  {
    if s != [] {
      SplitCount(s[1..], c);
    }
  }

  /** No piece of `s.split(c)` contains `c`. */
  lemma {:induction false} SplitPiecesFree(s: string, c: char)
    ensures forall k :: 0 <= k < |Split(s, c)| ==> c !in Split(s, c)[k]
  {
    if s != [] {
      SplitPiecesFree(s[1..], c);
      var rest := Split(s[1..], c);
      if s[0] != c {
        assert c !in [s[0]] + rest[0];
        assert forall k :: 1 <= k < |Split(s, c)| ==> Split(s, c)[k] == rest[k];
      } else {
        assert forall k :: 1 <= k < |Split(s, c)| ==> Split(s, c)[k] == rest[k - 1];
      }
    }
  }

  /** `sep.join(pieces)`; joining no pieces gives the empty string. */
  function Join(pieces: seq<string>, sep: string): string
  {
    if |pieces| == 0 then ""
    else if |pieces| == 1 then pieces[0]
    else pieces[0] + sep + Join(pieces[1..], sep)
  }

  /** `s.replace(c, with)` for a one-character pattern. */
  function Replace(s: string, c: char, with: string): string
  {
    if s == [] then "" else (if s[0] == c then with else [s[0]]) + Replace(s[1..], c, with)
  }

  /** A string without the separator splits into itself alone. */
  lemma {:induction false} SplitNoSeparator(s: string, c: char)
    requires c !in s
    ensures Split(s, c) == [s]
  {
    if s != [] {
      SplitNoSeparator(s[1..], c);
      assert [s[0]] + s[1..] == s;
    }
  }

  /** Joining two non-empty lists puts one separator between their joins. */
  lemma {:induction false} JoinConcat(p: seq<string>, q: seq<string>, sep: string)
    requires |p| >= 1 && |q| >= 1
    ensures Join(p + q, sep) == Join(p, sep) + sep + Join(q, sep)
  {
    var pq := p + q;
    assert pq[0] == p[0];
    if |p| == 1 {
      assert pq[1..] == q;
    } else {
      assert pq[1..] == p[1..] + q;
      JoinConcat(p[1..], q, sep);
    }
  }

  /** Splitting distributes over one separator: the pieces of `a + [c] + b` are the
      pieces of `a` followed by the pieces of `b`. */
  lemma {:induction false} SplitConcat(a: string, b: string, c: char)
    ensures Split(a + [c] + b, c) == Split(a, c) + Split(b, c)
  {
    var ra, rb := Split(a, c), Split(b, c);
    var both := ra + rb;
    assert forall k :: 0 <= k < |both| ==> c !in both[k] by {
      SplitPiecesFree(a, c);
      SplitPiecesFree(b, c);
      forall k | 0 <= k < |both| ensures c !in both[k] {
        if k >= |ra| {
          assert both[k] == rb[k - |ra|];
        }
      }
    }
    assert Join(both, [c]) == a + [c] + b by {
      SplitJoinRoundTrip(a, c);
      SplitJoinRoundTrip(b, c);
      JoinConcat(ra, rb, [c]);
    }
    SplitUnique(both, a + [c] + b, c);
  }

  /** Prepending `h` to the first piece prepends it to the joined string. */
  lemma {:induction false} JoinPrependFirst(h: string, pieces: seq<string>, sep: string)
    requires |pieces| >= 1
    ensures Join([h + pieces[0]] + pieces[1..], sep) == h + Join(pieces, sep)
  {
    var p := [h + pieces[0]] + pieces[1..];
    if |pieces| > 1 {
      assert p[1..] == pieces[1..];
    }
  }

  /** Joining the pieces of `s.split(c)` with `sep` replaces every `c` in `s` by `sep`. */
  lemma {:induction false} JoinSplit(s: string, c: char, sep: string)
    ensures Join(Split(s, c), sep) == Replace(s, c, sep)
  {
    if s != [] {
      JoinSplit(s[1..], c, sep);
      var rest := Split(s[1..], c);
      if s[0] == c {
        assert ([""] + rest)[1..] == rest;
      } else {
        JoinPrependFirst([s[0]], rest, sep);
      }
    }
  }

  /** Replacing `c` by itself changes nothing. */
  lemma {:induction false} ReplaceByItself(s: string, c: char)
    ensures Replace(s, c, [c]) == s
  {
    if s != [] {
      ReplaceByItself(s[1..], c);
      assert [s[0]] + s[1..] == s;
    }
  }

  /** Round trip: `c.join(s.split(c)) == s`. */
  lemma {:induction false} SplitJoinRoundTrip(s: string, c: char)
    ensures Join(Split(s, c), [c]) == s
  {
    JoinSplit(s, c, [c]);
    ReplaceByItself(s, c);
  }

  /** `s.split(c)` is the only list of `c`-free pieces that `c.join` turns back into `s`. */
  lemma {:induction false} SplitUnique(pieces: seq<string>, s: string, c: char)
    requires |pieces| >= 1
    requires forall k :: 0 <= k < |pieces| ==> c !in pieces[k]
    requires Join(pieces, [c]) == s
    ensures pieces == Split(s, c)
    decreases |s|
  {
    if |pieces| == 1 {
      SplitNoSeparator(s, c);
    } else if pieces[0] == "" {
      assert s == [c] + Join(pieces[1..], [c]);
      assert s[1..] == Join(pieces[1..], [c]);
      SplitUnique(pieces[1..], s[1..], c);
      assert pieces == [""] + pieces[1..];
    } else {
      var p0 := pieces[0];
      var tail := [p0[1..]] + pieces[1..];
      assert [p0[0]] + p0[1..] == p0;
      assert tail[1..] == pieces[1..];
      assert tail[0] == p0[1..];
      JoinPrependFirst([p0[0]], tail, [c]);
      assert [[p0[0]] + tail[0]] + tail[1..] == pieces;
      assert s == [p0[0]] + Join(tail, [c]);
      assert s[1..] == Join(tail, [c]);
      assert forall k :: 0 <= k < |tail| ==> c !in tail[k] by {
        forall k | 0 <= k < |tail| ensures c !in tail[k] {
          if k == 0 {
            assert forall x :: x in p0[1..] ==> x in p0;
          } else {
            assert tail[k] == pieces[k];
          }
        }
      }
      SplitUnique(tail, s[1..], c);
      assert p0[0] in p0;
      assert s[0] == p0[0];
    }
  }

  /** The characters `str.isspace()` accepts in Python 3: the ASCII controls TAB, LF,
      VT, FF, CR and the separators 0x1C-0x1F, the space, NEL, NO-BREAK SPACE and the
      Unicode space separators, line separator and paragraph separator. */
  predicate IsSpace(ch: char)
  {
    var n := ch as int;
    (0x09 <= n <= 0x0D) || (0x1C <= n <= 0x20) || n == 0x85 || n == 0xA0 || n == 0x1680
    || (0x2000 <= n <= 0x200A) || n == 0x2028 || n == 0x2029 || n == 0x202F
    || n == 0x205F || n == 0x3000
  }

  /** `s.lstrip()`: `s` without its leading whitespace. */
  function TrimStart(s: string): (r: string)
    ensures |r| <= |s|
    ensures r == [] || !IsSpace(r[0])
  {
    if s != [] && IsSpace(s[0]) then TrimStart(s[1..]) else s
  }

  /** `s.rstrip()`: `s` without its trailing whitespace. */
  function TrimEnd(s: string): (r: string)
    ensures |r| <= |s|
    ensures r == [] || !IsSpace(r[|r| - 1])
  {
    if s != [] && IsSpace(s[|s| - 1]) then TrimEnd(s[..|s| - 1]) else s
  }

  /** `s.lstrip()` is the longest suffix of `s` not starting with whitespace: what it
      removes is all whitespace. */
  lemma {:induction false} TrimStartIsSuffix(s: string)
    ensures TrimStart(s) == s[|s| - |TrimStart(s)|..]
    ensures forall k :: 0 <= k < |s| - |TrimStart(s)| ==> IsSpace(s[k])
  {
    if s != [] && IsSpace(s[0]) {
      TrimStartIsSuffix(s[1..]);
      assert forall k :: 1 <= k < |s| ==> s[1..][k - 1] == s[k];
    }
  }

  /** `s.rstrip()` is the longest prefix of `s` not ending with whitespace: what it
      removes is all whitespace. */
  lemma {:induction false} TrimEndIsPrefix(s: string)
    ensures TrimEnd(s) == s[..|TrimEnd(s)|]
    ensures forall k :: |TrimEnd(s)| <= k < |s| ==> IsSpace(s[k])
  {
    if s != [] && IsSpace(s[|s| - 1]) {
      var front := s[..|s| - 1];
      TrimEndIsPrefix(front);
      assert forall k :: 0 <= k < |front| ==> front[k] == s[k];
      assert TrimEnd(s) == front[..|TrimEnd(s)|];
    }
  }

  /** Neither the first nor the last character is whitespace. */
  predicate IsStripped(t: string)
  {
    t == [] || (!IsSpace(t[0]) && !IsSpace(t[|t| - 1]))
  }

  /** `s.strip()`: `s` without its leading and trailing whitespace. */
  function Strip(s: string): (r: string)
    ensures |r| <= |s|
    ensures IsStripped(r)
  {
    TrimEndIsPrefix(TrimStart(s));
    TrimEnd(TrimStart(s))
  }

  /** `s.strip()` is the slice `s[i..j]` that starts and ends with non-whitespace and
      outside of which `s` holds only whitespace. */
  lemma {:induction false} StripIsSlice(s: string) returns (i: nat, j: nat)
    ensures i <= j <= |s| && Strip(s) == s[i..j]
    ensures IsStripped(Strip(s))
    ensures forall k :: 0 <= k < i ==> IsSpace(s[k])
    ensures forall k :: j <= k < |s| ==> IsSpace(s[k])
  {
    var t := TrimStart(s);
    var r := TrimEnd(t);
    i := |s| - |t|;
    j := i + |r|;
    assert t == s[i..] && forall k :: 0 <= k < i ==> IsSpace(s[k]) by {
      TrimStartIsSuffix(s);
    }
    assert r == t[..|r|] && forall k :: |r| <= k < |t| ==> IsSpace(t[k]) by {
      TrimEndIsPrefix(t);
    }
    assert r == s[i..j];
    forall k | j <= k < |s| ensures IsSpace(s[k]) {
      assert s[k] == t[k - i];
    }
    if r != [] {
      assert r[0] == t[0];
    }
  }

  /** A string that is already stripped is left unchanged by `strip()`. */
  lemma {:induction false} StripStripped(t: string)
    requires IsStripped(t)
    ensures Strip(t) == t
  {
  }

  /** `strip()` is idempotent. */
  lemma {:induction false} StripIdempotent(s: string)
    ensures Strip(Strip(s)) == Strip(s)
  {
    var _, _ := StripIsSlice(s);
    StripStripped(Strip(s));
  }

  /** `s.startswith(prefix)`. */
  predicate StartsWith(s: string, prefix: string)
  {
    |prefix| <= |s| && s[..|prefix|] == prefix
  }

  /** `s.startswith(prefixes)` with a tuple: `s` starts with one of them. */
  predicate StartsWithAny(s: string, prefixes: seq<string>)
  {
    |prefixes| > 0 && (StartsWith(s, prefixes[0]) || StartsWithAny(s, prefixes[1..]))
  }

  /** `startswith` with a tuple holds exactly when one of the prefixes matches. */
  lemma {:induction false} StartsWithAnyExists(s: string, prefixes: seq<string>)
    ensures StartsWithAny(s, prefixes) <==>
      exists k :: 0 <= k < |prefixes| && StartsWith(s, prefixes[k])
  {
    if |prefixes| > 0 {
      StartsWithAnyExists(s, prefixes[1..]);
      assert forall k :: 1 <= k < |prefixes| ==> prefixes[1..][k - 1] == prefixes[k];
      if StartsWithAny(s, prefixes[1..]) {
        var k :| 0 <= k < |prefixes| - 1 && StartsWith(s, prefixes[1..][k]);
        assert StartsWith(s, prefixes[k + 1]);
      }
    }
  }
}
