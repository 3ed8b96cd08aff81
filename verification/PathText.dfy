/** Paths as text: what the shell joins together, `split_path` takes apart again. */
module PathText {
  import opened Bytes

  const SLASH: byte := 47
  const MAX_COMPONENT := 63

  /** The bytes of a C string before its terminator. */
  type CString = s: seq<byte> | 0 !in s

  /** The string a buffer holds: everything before its first zero. */
  function Str(s: seq<byte>): (r: CString)
    ensures |r| <= |s| && s[..|r|] == r && (|r| < |s| ==> s[|r|] == 0)
  {
    if s == [] || s[0] == 0 then [] else [s[0]] + Str(s[1..])
  }

  lemma {:induction false} StrWhole(s: seq<byte>, n: nat)
    requires n <= |s| && 0 !in s[..n] && (n < |s| ==> s[n] == 0)
    ensures Str(s) == s[..n]
  {
    if n > 0 {
      assert s[0] == s[..n][0] && s[1..][..n - 1] == s[..n][1..];
      StrWhole(s[1..], n - 1);
    }
  }

  // ----- the words of a path -----

  function Slashes(p: CString): (n: nat)
    ensures n <= |p| && (n < |p| ==> p[n] != SLASH) && forall i :: 0 <= i < n ==> p[i] == SLASH
  {
    if p != [] && p[0] == SLASH then 1 + Slashes(p[1..]) else 0
  }

  function WordLen(p: CString): (n: nat)
    ensures n <= |p| && (n < |p| ==> p[n] == SLASH) && forall i :: 0 <= i < n ==> p[i] != SLASH
  {
    if p != [] && p[0] != SLASH then 1 + WordLen(p[1..]) else 0
  }

  /** The maximal runs of bytes other than the slash. */
  function Words(p: CString): seq<CString>
    decreases |p|
  {
    if p == [] then []
    else if p[0] == SLASH then Words(p[1..])
    else [p[..WordLen(p)]] + Words(p[WordLen(p)..])
  }

  /** Words of 63 bytes or more are dropped. */
  function Shorts(ws: seq<CString>): seq<CString> {
    if ws == [] then [] else (if |ws[0]| < MAX_COMPONENT then [ws[0]] else []) + Shorts(ws[1..])
  }

  function Head(ws: seq<CString>, max: nat): seq<CString> { if |ws| <= max then ws else ws[..max] }

  /** What `split_path` delivers: the first `max` short words. */
  function SplitPath(path: CString, max: nat): seq<CString> { Head(Shorts(Words(path)), max) }

  /** A name that survives being printed as one component. */
  predicate Plain(n: seq<byte>) { 0 < |n| < MAX_COMPONENT && SLASH !in n && 0 !in n }

  predicate AllPlain(ns: seq<CString>) { forall i :: 0 <= i < |ns| ==> Plain(ns[i]) }

  /** One turn of the loop of `update_path_display` that builds the string. */
  function Appended(path: CString, name: CString): CString {
    (if |path| > 1 then path + [SLASH] else path) + name
  }

  /** The printed path. */
  function Joined(names: seq<CString>): (r: CString)
    ensures |r| >= 1
  {
    if names == [] then [SLASH] else Appended(Joined(names[..|names| - 1]), names[|names| - 1])
  }

  // ----- splitting undoes joining -----

  lemma WordLenIs(p: CString, n: nat)
    requires n <= |p| && SLASH !in p[..n] && (n < |p| ==> p[n] == SLASH)
    ensures WordLen(p) == n
  {
    assert forall i :: 0 <= i < n ==> p[i] == p[..n][i];
  }

  lemma {:induction false} WordsAppend(p: CString, q: CString)
    requires q == [] || q[0] == SLASH
    ensures 0 !in p + q && Words(p + q) == Words(p) + Words(q)
    decreases |p|
  {
    if p == [] {
      assert p + q == q;
    } else if p[0] == SLASH {
      assert (p + q)[1..] == p[1..] + q;
      WordsAppend(p[1..], q);
    } else {
      var n := WordLen(p);
      assert (p + q)[..n] == p[..n] && (p + q)[n..] == p[n..] + q;
      assert n < |p + q| ==> (p + q)[n] == SLASH;
      WordLenIs(p + q, n);
      WordsAppend(p[n..], q);
    }
  }

  lemma OneWord(w: CString)
    requires w != [] && SLASH !in w
    ensures Words(w) == [w]
  {
    assert w[..|w|] == w;
    WordLenIs(w, |w|);
    assert w[|w|..] == [];
  }

  lemma AppendedWords(p: CString, w: CString)
    requires w != [] && SLASH !in w && (|p| > 1 || p == [SLASH])
    ensures |Appended(p, w)| > 1 && Words(Appended(p, w)) == Words(p) + [w]
  {
    hide WordLen;
    OneWord(w);
    assert ([SLASH] + w)[1..] == w;
    if |p| > 1 {
      WordsAppend(p, [SLASH] + w);
      assert Appended(p, w) == p + ([SLASH] + w);
    } else {
      assert p[1..] == [];
      assert Words(p) == [];
    }
  }

  lemma {:induction false} JoinedWords(names: seq<CString>)
    requires AllPlain(names)
    ensures Words(Joined(names)) == names && (names == [] ==> Joined(names) == [SLASH])
    ensures (names != [] ==> |Joined(names)| > 1)
  {
    hide Words, Appended;
    if names == [] {
      NoWords();
    } else {
      var rest, w := names[..|names| - 1], names[|names| - 1];
      JoinedWords(rest);
      AppendedWords(Joined(rest), w);
      assert names == rest + [w];
    }
  }

  lemma NoWords()
    ensures Words([SLASH]) == []
  {
    assert [SLASH][1..] == [];
  }

  lemma {:induction false} ShortsOfPlain(ws: seq<CString>)
    requires AllPlain(ws)
    ensures Shorts(ws) == ws
  {
    if ws != [] {
      assert Plain(ws[0]);
      assert AllPlain(ws[1..]) by {
        forall i | 0 <= i < |ws[1..]| ensures Plain(ws[1..][i]) { assert ws[1..][i] == ws[i + 1]; }
      }
      ShortsOfPlain(ws[1..]);
    }
  }

  lemma {:induction false} WordsAreWords(p: CString)
    ensures forall i :: 0 <= i < |Words(p)| ==> Words(p)[i] != [] && SLASH !in Words(p)[i]
    decreases |p|
  {
    if p != [] {
      WordsAreWords(if p[0] == SLASH then p[1..] else p[WordLen(p)..]);
    }
  }

  lemma {:induction false} ShortsArePlain(ws: seq<CString>)
    requires forall i :: 0 <= i < |ws| ==> ws[i] != [] && SLASH !in ws[i]
    ensures AllPlain(Shorts(ws))
  {
    if ws != [] { ShortsArePlain(ws[1..]); }
  }

  /** Whatever the path, what `split_path` delivers are at most `max` plain names. */
  lemma SplitIsPlain(path: CString, max: nat)
    ensures AllPlain(SplitPath(path, max)) && |SplitPath(path, max)| <= max
  {
    WordsAreWords(path);
    ShortsArePlain(Words(path));
  }

  /** `split_path` undoes the join exactly when there is room for every name and all are plain. */
  lemma SplitUndoesJoin(names: seq<CString>, max: nat)
    ensures SplitPath(Joined(names), max) == names <==> |names| <= max && AllPlain(names)
  {
    SplitIsPlain(Joined(names), max);
    if AllPlain(names) {
      JoinedWords(names);
      ShortsOfPlain(names);
    }
  }

  /** With more names than room, the first ones are kept. */
  lemma SplitKeepsFirst(names: seq<CString>, max: nat)
    requires AllPlain(names)
    ensures SplitPath(Joined(names), max) == Head(names, max)
  {
    JoinedWords(names);
    ShortsOfPlain(names);
  }

  /** Each name behind a slash. */
  function Slashed(names: seq<CString>): CString {
    if names == [] then [] else [47] + names[0] + Slashed(names[1..])
  }

  lemma {:induction false} SlashedAppend(names: seq<CString>, name: CString)
    ensures Slashed(names + [name]) == Slashed(names) + [47] + name
  {
    if names == [] {
      assert [name][1..] == [] && [] + [name] == [name];
    } else {
      assert (names + [name])[1..] == names[1..] + [name];
      SlashedAppend(names[1..], name);
    }
  }

  /** The printed path, byte for byte: each name behind one slash, and a slash alone for the root. */
  lemma {:induction false} JoinedExactly(names: seq<CString>)
    requires forall i :: 0 <= i < |names| ==> names[i] != []
    ensures Joined(names) == (if names == [] then [47] else Slashed(names))
    ensures names != [] ==> |Joined(names)| > 1
  {
    if names != [] {
      var i := |names| - 1;
      assert names == names[..i] + [names[i]];
      JoinedExactly(names[..i]);
      SlashedAppend(names[..i], names[i]);
      if i == 0 { assert Slashed(names[..i]) == []; }
    }
  }

  // ----- any path at all -----

  lemma {:induction false} ShortsAppend(x: seq<CString>, y: seq<CString>)
    ensures Shorts(x + y) == Shorts(x) + Shorts(y)
  {
    if x == [] {
      assert x + y == y;
    } else {
      assert (x + y)[1..] == x[1..] + y;
      ShortsAppend(x[1..], y);
    }
  }

  lemma {:induction false} FewWords(p: CString)
    ensures |Shorts(Words(p))| <= |Words(p)| <= |p|
    decreases |p|
  {
    if p != [] {
      var rest := if p[0] == SLASH then p[1..] else p[WordLen(p)..];
      FewWords(rest);
      FewShorts(Words(p));
    } else {
      FewShorts([]);
    }
  }

  lemma {:induction false} FewShorts(ws: seq<CString>)
    ensures |Shorts(ws)| <= |ws|
  {
    if ws != [] { FewShorts(ws[1..]); }
  }

  /** All the names of a path, however many. */
  function AllNames(p: CString): seq<CString> { SplitPath(p, |p|) }

  /**
   * `split_path` of any string: a slash anywhere separates, a piece without slashes is one name if it has 1 to 62
   * bytes and none otherwise, and of all the names the first `max` are delivered.
   */
  lemma SplitExactly(p: CString, q: CString, w: CString, max: nat)
    requires 47 !in w
    ensures 0 !in p + [47] + q && AllNames(p + [47] + q) == AllNames(p) + AllNames(q)
    ensures AllNames(w) == if 1 <= |w| <= 62 then [w] else []
    ensures SplitPath(p, max) == if |AllNames(p)| <= max then AllNames(p) else AllNames(p)[..max]
  {
    hide Words;
    var s: CString := [SLASH] + q;
    assert p + [47] + q == p + s;
    WordsAppend(p, s);
    SlashFirst(q);
    ShortsAppend(Words(p), Words(q));
    FewWords(p);
    FewWords(q);
    FewWords(p + s);
    WordOrNone(w);
  }

  lemma SlashFirst(q: CString)
    ensures Words([SLASH] + q) == Words(q)
  {
    assert ([SLASH] + q)[1..] == q;
  }

  lemma WordOrNone(w: CString)
    requires SLASH !in w
    ensures Words(w) == (if w == [] then [] else [w]) && Shorts(Words(w)) == if 1 <= |w| <= 62 then [w] else []
  {
    hide WordLen;
    if w != [] {
      OneWord(w);
      assert [w][1..] == [];
    }
  }
}
