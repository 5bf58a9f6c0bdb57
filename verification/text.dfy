/** String operations the harness and its log parser rely on: the command
    sanitiser of concurency/main.cpp, the C++ `rfind`/prefix tests, and the
    Python `in`, `strip`, `split` and `join` used by concurency/parse.py. */
module Text {
  import opened Common

  // ---------------------------------------------------------------------------
  // sanitize_command: erase every '2' (std::remove + erase)
  // ---------------------------------------------------------------------------

  function Sanitize(s: string): (r: string)
    ensures '2' !in r
    ensures |r| <= |s|
  {
    if |s| == 0 then [] else Keep(s[0]) + Sanitize(s[1..])
  }

  /** Every character other than '2' survives, as often as it occurred. */
  lemma {:induction false} SanitizeKeepsOthers(s: string)
    ensures multiset(Sanitize(s)) == multiset(s)['2' := 0]
  {
    if |s| > 0 {
      SanitizeKeepsOthers(s[1..]);
      HeadTail(s);
      assert multiset(s) == multiset([s[0]]) + multiset(s[1..]);
    }
  }

  /** What the sanitiser keeps of one character. */
  function Keep(c: char): (r: string)
  {
    if c == '2' then [] else [c]
  }

  lemma SanitizeCons(c: char, t: string)
    ensures Sanitize([c] + t) == Keep(c) + Sanitize(t)
  {
    assert ([c] + t)[0] == c;
    assert ([c] + t)[1..] == t;
  }

  /** The sanitiser acts character by character and keeps the order of what it
      keeps: it distributes over concatenation. */
  lemma {:induction false} SanitizeConcat(a: string, b: string)
    ensures Sanitize(a + b) == Sanitize(a) + Sanitize(b)
    decreases |a|
  {
    if |a| == 0 {
      assert a + b == b;
    } else {
      var c, t := a[0], a[1..];
      calc {
        Sanitize(a + b);
        { HeadTail(a); assert a + b == [c] + (t + b); }
        Sanitize([c] + (t + b));
        { SanitizeCons(c, t + b); }
        Keep(c) + Sanitize(t + b);
        { SanitizeConcat(t, b); }
        Keep(c) + (Sanitize(t) + Sanitize(b));
        (Keep(c) + Sanitize(t)) + Sanitize(b);
        { HeadTail(a); SanitizeCons(c, t); }
        Sanitize(a) + Sanitize(b);
      }
    }
  }

  /** Sanitising a string that has no '2' leaves it untouched, and only such
      strings are left untouched. */
  lemma {:induction false} SanitizeFixpoint(s: string)
    ensures Sanitize(s) == s <==> '2' !in s
    decreases |s|
  {
    if |s| > 0 {
      var c, t := s[0], s[1..];
      SanitizeFixpoint(t);
      HeadTail(s);
      SanitizeCons(c, t);
      assert ('2' in s) <==> c == '2' || '2' in t;
      if c == '2' {
        assert |Sanitize(s)| <= |t| < |s|;
      } else {
        ConsCancel(c, Sanitize(t), t);
      }
    }
  }

  lemma ConsCancel(c: char, u: string, v: string)
    ensures [c] + u == [c] + v <==> u == v
  {
    if [c] + u == [c] + v {
      assert u == ([c] + u)[1..];
    }
  }

  /** sanitize_command is idempotent. */
  lemma SanitizeIdempotent(s: string)
    ensures Sanitize(Sanitize(s)) == Sanitize(s)
  {
    SanitizeFixpoint(Sanitize(s));
  }

  /** The canonical transfer token `A2B` becomes `AB`. */
  lemma SanitizeTransferToken(a: char, b: char)
    requires a != '2' && b != '2'
    ensures Sanitize([a, '2', b]) == [a, b]
  {
    assert [a, '2', b] == [a] + (['2'] + ([b] + []));
    SanitizeCons(b, []);
    SanitizeCons('2', [b]);
    SanitizeCons(a, ['2', b]);
    assert [a] + [b] == [a, b];
  }

  // ---------------------------------------------------------------------------
  // Substring occurrence, C++ rfind and prefix tests
  // ---------------------------------------------------------------------------

  predicate OccursAt(s: string, p: string, k: nat)
  {
    k + |p| <= |s| && s[k..k + |p|] == p
  }

  function RFindFrom(s: string, p: string, k: nat): (r: Option<nat>)
    requires k + |p| <= |s|
    ensures r.Some? ==> r.value <= k && OccursAt(s, p, r.value)
    ensures r.Some? ==> forall j: nat :: r.value < j <= k ==> !OccursAt(s, p, j)
    ensures r.None? ==> forall j: nat :: j <= k ==> !OccursAt(s, p, j)
    decreases k
  {
    if OccursAt(s, p, k) then Some(k)
    else if k == 0 then None
    else RFindFrom(s, p, k - 1)
  }

  /** `s.rfind(p)`: the position of the LAST occurrence of `p` in `s`
      (`std::string::npos` is `None`). */
  function RFind(s: string, p: string): (r: Option<nat>)
    ensures r.Some? ==> OccursAt(s, p, r.value)
    ensures r.Some? ==> forall j: nat :: r.value < j ==> !OccursAt(s, p, j)
    ensures r.None? ==> forall j: nat :: !OccursAt(s, p, j)
  {
    if |p| > |s| then None else RFindFrom(s, p, |s| - |p|)
  }

  /** `s.rfind(p, 0) == 0`: the search may only start at position 0, so this is
      a plain prefix test. */
  predicate StartsWith(s: string, p: string)
  {
    p <= s
  }

  /** `s.rfind(p) == 0` (no start position) holds exactly when `p` is a prefix
      of `s` that never occurs again further right. */
  lemma RFindIsZero(s: string, p: string)
    ensures RFind(s, p) == Some(0) <==>
              StartsWith(s, p) && forall j: nat :: 0 < j ==> !OccursAt(s, p, j)
  {
    if StartsWith(s, p) {
      assert OccursAt(s, p, 0);
    }
  }

  /** A token that starts with `--tripcount_` but repeats it is not taken as a
      tripcount option by the `rfind` test. */
  lemma RFindMissesRepeatedPrefix()
    ensures StartsWith("--tripcount_x--tripcount_", "--tripcount_")
    ensures RFind("--tripcount_x--tripcount_", "--tripcount_") != Some(0)
  {
    var s := "--tripcount_x--tripcount_";
    assert s[13..25] == "--tripcount_";
    assert OccursAt(s, "--tripcount_", 13);
  }

  function FindFrom(s: string, p: string, k: nat): (r: Option<nat>)
    ensures r.Some? ==> k <= r.value && OccursAt(s, p, r.value)
    ensures r.Some? ==> forall j: nat :: k <= j < r.value ==> !OccursAt(s, p, j)
    ensures r.None? ==> forall j: nat :: k <= j ==> !OccursAt(s, p, j)
    decreases |s| - k
  {
    if k + |p| > |s| then None
    else if OccursAt(s, p, k) then Some(k)
    else FindFrom(s, p, k + 1)
  }

  /** Python `s.find(p)` / C++ `s.find(p)`: the FIRST occurrence. */
  function Find(s: string, p: string): (r: Option<nat>)
    ensures r.Some? ==> OccursAt(s, p, r.value)
    ensures r.Some? ==> forall j: nat :: j < r.value ==> !OccursAt(s, p, j)
    ensures r.None? ==> forall j: nat :: !OccursAt(s, p, j)
  {
    FindFrom(s, p, 0)
  }

  /** Python `p in s`. */
  predicate Contains(s: string, p: string)
  {
    Find(s, p).Some?
  }

  /** Looking for a one-letter string is looking for the letter. */
  lemma ContainsLetter(s: string, c: char)
    ensures Contains(s, [c]) <==> c in s
  {
    if c in s {
      var j :| 0 <= j < |s| && s[j] == c;
      assert OccursAt(s, [c], j);
    } else {
      forall j: nat | j < |s|
        ensures !OccursAt(s, [c], j)
      {
        assert s[j] != c;
      }
    }
  }

  // ---------------------------------------------------------------------------
  // Python str.strip / str.split() / str.join
  // ---------------------------------------------------------------------------

  /** ASCII characters for which Python's `str.isspace` holds. */
  predicate IsSpace(c: char)
  {
    c == ' ' || c == '\t' || c == '\n' || c == '\r' || c == '\U{B}' || c == '\U{C}'
    || ('\U{1C}' <= c <= '\U{1F}')
  }

  function StripLeft(s: string): (r: string)
    ensures |r| <= |s| && r == s[|s| - |r|..]
    ensures forall k :: 0 <= k < |s| - |r| ==> IsSpace(s[k])
    ensures |r| > 0 ==> !IsSpace(r[0])
  {
    if |s| > 0 && IsSpace(s[0]) then StripLeft(s[1..]) else s
  }

  function StripRight(s: string): (r: string)
    ensures |r| <= |s| && r == s[..|r|]
    ensures forall k :: |r| <= k < |s| ==> IsSpace(s[k])
    ensures |r| > 0 ==> !IsSpace(r[|r| - 1])
  {
    if |s| > 0 && IsSpace(s[|s| - 1]) then StripRight(s[..|s| - 1]) else s
  }

  /** Python `s.strip()`. */
  function Strip(s: string): (r: string)
    ensures |r| <= |s|
    ensures |r| > 0 ==> !IsSpace(r[0]) && !IsSpace(r[|r| - 1])
    ensures r <= StripLeft(s)
    ensures forall k :: |r| <= k < |StripLeft(s)| ==> IsSpace(StripLeft(s)[k])
  {
    var t := StripLeft(s);
    var r := StripRight(t);
    assert |r| <= |t| <= |s|;
    r
  }

  /** Length of the run of non-space characters at the start of `s`. */
  function WordLength(s: string): (n: nat)
    ensures n <= |s|
    ensures forall k :: 0 <= k < n ==> !IsSpace(s[k])
    ensures n < |s| ==> IsSpace(s[n])
    ensures |s| > 0 && !IsSpace(s[0]) ==> n > 0
  {
    if |s| == 0 || IsSpace(s[0]) then 0 else 1 + WordLength(s[1..])
  }

  predicate IsWord(w: string)
  {
    |w| > 0 && forall k :: 0 <= k < |w| ==> !IsSpace(w[k])
  }

  /** Python `s.split()`: the maximal runs of non-space characters. */
  function Words(s: string): (r: seq<string>)
    ensures forall k :: 0 <= k < |r| ==> IsWord(r[k])
    decreases |s|
  {
    var t := StripLeft(s);
    if |t| == 0 then []
    else
      var n := WordLength(t);
      var rest := Words(t[n..]);
      var w := t[..n];
      FirstWordIsWord(t);
      WordsCons(w, rest);
      [w] + rest
  }

  lemma WordsCons(w: string, rest: seq<string>)
    requires IsWord(w) && forall k :: 0 <= k < |rest| ==> IsWord(rest[k])
    ensures forall k :: 0 <= k < |[w] + rest| ==> IsWord(([w] + rest)[k])
  {
    forall k | 0 <= k < |[w] + rest|
      ensures IsWord(([w] + rest)[k])
    {
      if k > 0 {
        assert ([w] + rest)[k] == rest[k - 1];
      }
    }
  }

  lemma FirstWordIsWord(t: string)
    requires |t| > 0 && !IsSpace(t[0])
    ensures IsWord(t[..WordLength(t)])
  {
    var w := t[..WordLength(t)];
    assert forall k :: 0 <= k < |w| ==> w[k] == t[k];
  }

  /** Python `sep.join(ws)`. */
  function Join(ws: seq<string>, sep: string): string
  {
    if |ws| == 0 then ""
    else if |ws| == 1 then ws[0]
    else ws[0] + sep + Join(ws[1..], sep)
  }

  lemma WordsOfWordThenRest(w: string, rest: string)
    requires IsWord(w)
    requires |rest| == 0 || IsSpace(rest[0])
    ensures Words(w + rest) == [w] + Words(rest)
  {
    var s := w + rest;
    assert s[0] == w[0];
    assert StripLeft(s) == s;
    var n := WordLength(s);
    assert forall k :: 0 <= k < |w| ==> s[k] == w[k] && w[k] in w;
    assert |w| < |s| ==> s[|w|] == rest[0];
    assert n == |w|;
    assert s[..n] == w;
    assert s[n..] == rest;
  }

  lemma WordsSkipsSpace(x: string)
    ensures Words([' '] + x) == Words(x)
  {
    var y := [' '] + x;
    assert y[1..] == x;
    assert StripLeft(y) == StripLeft(x);
    WordsAfterStrip(y, x);
  }

  /** The words of a string depend only on what is left after its leading
      spaces. */
  lemma WordsAfterStrip(a: string, b: string)
    requires StripLeft(a) == StripLeft(b)
    ensures Words(a) == Words(b)
  {
  }

  lemma JoinCons(ws: seq<string>)
    requires |ws| >= 2
    ensures Join(ws, " ") == ws[0] + ([' '] + Join(ws[1..], " "))
  {
  }

  /** Splitting a space-joined list of words gives the words back. */
  lemma {:induction false} WordsJoinRoundTrip(ws: seq<string>)
    requires forall k :: 0 <= k < |ws| ==> IsWord(ws[k])
    ensures Words(Join(ws, " ")) == ws
    decreases |ws|
  {
    if |ws| == 0 {
    } else if |ws| == 1 {
      WordsOfWordThenRest(ws[0], "");
      assert ws[0] + "" == ws[0];
      Singleton(ws);
    } else {
      var tail := ws[1..];
      var rest := Join(tail, " ");
      var spaced := [' '] + rest;
      assert forall k :: 0 <= k < |tail| ==> tail[k] == ws[k + 1];
      WordsJoinRoundTrip(tail);
      JoinCons(ws);
      assert spaced[0] == ' ';
      WordsOfWordThenRest(ws[0], spaced);
      WordsSkipsSpace(rest);
      calc {
        Words(Join(ws, " "));
        Words(ws[0] + spaced);
        [ws[0]] + Words(spaced);
        [ws[0]] + tail;
      }
      HeadTail(ws);
    }
  }
}
