/**
  JSON pointers (RFC 6901) as patches use them: without the leading slash.
  */
module JsonPointer {
  import opened Prelude

  type Path = seq<string>

  // ----- Escaping -----

  function ReplaceChar(s: string, c: char, sub: string): string {
    if s == [] then [] else (if s[0] == c then sub else [s[0]]) + ReplaceChar(s[1..], c, sub)
  }

  /** `escapeJsonPointerToken`: two passes, the tilde first. */
  function Escape(s: string): string { ReplaceChar(ReplaceChar(s, '~', "~0"), '/', "~1") }

  /** Replaces the two characters `a`, `b` wherever they stand together, from the left. */
  function ReplacePair(s: string, a: char, b: char, sub: char): string {
    if s == [] then []
    else if |s| >= 2 && s[0] == a && s[1] == b then [sub] + ReplacePair(s[2..], a, b, sub)
    else [s[0]] + ReplacePair(s[1..], a, b, sub)
  }

  /** Section 4 of RFC 6901: `~1` first and then `~0`. */
  function Unescape(s: string): string { ReplacePair(ReplacePair(s, '~', '1', '/'), '~', '0', '~') }

  /** Section 3 of RFC 6901: a tilde only stands before a 0 or a 1. */
  predicate IsToken(s: string) {
    forall i :: 0 <= i < |s| && s[i] == '~' ==> i + 1 < |s| && (s[i + 1] == '0' || s[i + 1] == '1')
  }

  /** What escaping makes of one character. */
  function EscapeChar(c: char): string { if c == '~' then "~0" else if c == '/' then "~1" else [c] }

  lemma EscapeFirst(s: string)
    requires s != []
    ensures Escape(s) == EscapeChar(s[0]) + Escape(s[1..])
  {
    var rest := ReplaceChar(s[1..], '~', "~0");
    if s[0] == '~' {
      var whole := "~0" + rest;
      assert ReplaceChar(s, '~', "~0") == whole;
      assert whole[1..] == "0" + rest && whole[1..][1..] == rest;
      assert ReplaceChar(whole, '/', "~1") == "~" + ("0" + ReplaceChar(rest, '/', "~1"));
    } else {
      assert ([s[0]] + rest)[1..] == rest;
    }
  }

  /** Escaping goes character by character: a tilde becomes `~0`, a slash `~1`, and any other stays. */
  lemma EscapeIsPerCharacter(a: string, b: string)
    ensures Escape(a + b) == Escape(a) + Escape(b)
    ensures Escape("~") == "~0" && Escape("/") == "~1"
    ensures forall c: char :: c != '~' && c != '/' ==> Escape([c]) == [c]
  {
    EscapeAppend(a, b);
    EscapeOne('~');
    EscapeOne('/');
    forall c: char | c != '~' && c != '/' ensures Escape([c]) == [c] {
      EscapeOne(c);
    }
    hide Escape;
  }

  lemma EscapeOne(c: char)
    ensures Escape([c]) == EscapeChar(c)
  {
    EscapeFirst([c]);
    hide EscapeChar;
  }

  lemma EscapeNothing(b: string)
    ensures [] + b == b && Escape([]) + Escape(b) == Escape(b)
  {
  }

  lemma {:induction false} EscapeAppend(a: string, b: string)
    ensures Escape(a + b) == Escape(a) + Escape(b)
  {
    EscapeNothing(b);
    hide Escape, EscapeChar;
    if a != [] {
      EscapeAppend(a[1..], b);
      EscapeFirst(a);
      EscapeFirst(a + b);
      assert (a + b)[1..] == a[1..] + b;
      Assoc(EscapeChar(a[0]), Escape(a[1..]), Escape(b));
    }
  }

  lemma {:induction false} UnescapeEscape(s: string)
    ensures Unescape(Escape(s)) == s
  {
    if s == [] {
    } else {
      var rest := Escape(s[1..]);
      var mid := ReplacePair(rest, '~', '1', '/');
      UnescapeEscape(s[1..]);
      EscapeFirst(s);
      FirstPass(s[0], rest);
      SecondPass(s[0], mid);
      hide ReplaceChar, ReplacePair, Escape;
      assert [s[0]] + s[1..] == s;
    }
  }

  lemma FirstPass(c: char, rest: string)
    ensures ReplacePair(EscapeChar(c) + rest, '~', '1', '/')
         == (if c == '~' then "~0" else [c]) + ReplacePair(rest, '~', '1', '/')
  {
    var s := EscapeChar(c) + rest;
    if c == '~' {
      assert s[1..] == "0" + rest && s[1..][1..] == rest;
      assert "~" + ("0" + ReplacePair(rest, '~', '1', '/')) == "~0" + ReplacePair(rest, '~', '1', '/');
    } else if c == '/' {
      assert s[2..] == rest;
    } else {
      assert s[1..] == rest;
    }
  }

  lemma SecondPass(c: char, rest: string)
    ensures ReplacePair((if c == '~' then "~0" else [c]) + rest, '~', '0', '~')
         == [c] + ReplacePair(rest, '~', '0', '~')
  {
    var s := (if c == '~' then "~0" else [c]) + rest;
    if c == '~' {
      assert s[2..] == rest;
    } else {
      assert s[1..] == rest;
    }
  }

  lemma {:induction false} EscapedIsToken(s: string)
    ensures IsToken(Escape(s)) && '/' !in Escape(s)
  {
    if s == [] {
      assert Escape(s) == [];
    } else {
      hide Escape, IsToken;
      EscapedIsToken(s[1..]);
      EscapeFirst(s);
      CharIsToken(s[0]);
      TokenAppend(EscapeChar(s[0]), Escape(s[1..]));
    }
  }

  lemma CharIsToken(c: char)
    ensures IsToken(EscapeChar(c)) && '/' !in EscapeChar(c)
  {
  }

  lemma TokenAppend(a: string, b: string)
    requires IsToken(a) && IsToken(b)
    ensures IsToken(a + b)
  {
    var s := a + b;
    forall i | 0 <= i < |s| && s[i] == '~' ensures i + 1 < |s| && (s[i + 1] == '0' || s[i + 1] == '1') {
      if i < |a| {
        assert a[i] == '~';
      } else {
        assert b[i - |a|] == '~';
      }
    }
  }

  // ----- Pointers -----

  function Split(s: string): (tokens: seq<string>)
    ensures tokens != []
  {
    if s == [] then [[]]
    else if s[0] == '/' then [[]] + Split(s[1..])
    else [[s[0]] + Split(s[1..])[0]] + Split(s[1..])[1..]
  }

  function Parse(pointer: string): Option<Path> {
    var tokens := Split(pointer);
    if AllTokens(tokens) then Some(Each(tokens)) else None
  }

  predicate AllTokens(tokens: seq<string>) { forall i :: 0 <= i < |tokens| ==> IsToken(tokens[i]) }

  function Each(tokens: seq<string>): (path: Path)
    ensures |path| == |tokens| && forall i :: 0 <= i < |path| ==> path[i] == Unescape(tokens[i])
  {
    seq(|tokens|, i requires 0 <= i < |tokens| => Unescape(tokens[i]))
  }

  /** What the members below a prefix add to its pointer. */
  function Below(path: Path): string {
    if path == [] then [] else "/" + Escape(path[0]) + Below(path[1..])
  }

  function EscapeEach(path: Path): (tokens: seq<string>)
    ensures |tokens| == |path| && forall i :: 0 <= i < |path| ==> tokens[i] == Escape(path[i])
  {
    seq(|path|, i requires 0 <= i < |path| => Escape(path[i]))
  }

  lemma {:induction false} SplitAtSlash(a: string, b: string)
    ensures Split(a + "/" + b) == Split(a) + Split(b)
  {
    var s := a + "/" + b;
    if a == [] {
      assert s == "/" + b && s[1..] == b;
    } else {
      assert s[0] == a[0] && s[1..] == a[1..] + "/" + b;
      SplitAtSlash(a[1..], b);
      if a[0] == '/' {
        Assoc([[]], Split(a[1..]), Split(b));
      } else {
        var t := Split(a[1..]);
        assert (t + Split(b))[1..] == t[1..] + Split(b);
        Assoc([[a[0]] + t[0]], t[1..], Split(b));
      }
    }
  }

  lemma {:induction false} SplitWithoutSlash(s: string)
    requires '/' !in s
    ensures Split(s) == [s]
  {
    if s == [] {
    } else {
      SplitWithoutSlash(s[1..]);
      assert [s[0]] + s[1..] == s;
    }
  }

  lemma FirstEscaped(path: Path)
    requires path != []
    ensures EscapeEach(path) == [Escape(path[0])] + EscapeEach(path[1..])
  {
    hide Escape;
  }

  lemma {:induction false} SplitBelow(prefix: string, path: Path)
    ensures Split(prefix + Below(path)) == Split(prefix) + EscapeEach(path)
    decreases |path|
  {
    if path == [] {
      assert prefix + Below(path) == prefix;
      assert Split(prefix) + EscapeEach(path) == Split(prefix);
    } else {
      var token := Escape(path[0]);
      EscapedIsToken(path[0]);
      SplitWithoutSlash(token);
      SplitBelow(token, path[1..]);
      SplitAtSlash(prefix, token + Below(path[1..]));
      hide Split, Escape;
      Assoc("/", token, Below(path[1..]));
      Assoc(prefix, "/", token + Below(path[1..]));
      FirstEscaped(path);
      hide EscapeEach;
      Assoc(Split(prefix), [token], EscapeEach(path[1..]));
    }
  }

  lemma EachBelow(head: seq<string>, path: Path)
    ensures AllTokens(head + EscapeEach(path)) <==> AllTokens(head)
    ensures Each(head + EscapeEach(path)) == Each(head) + path
  {
    forall i | 0 <= i < |path| ensures IsToken(Escape(path[i])) && Unescape(Escape(path[i])) == path[i] {
      EscapedIsToken(path[i]);
      UnescapeEscape(path[i]);
    }
    hide Escape, Unescape, IsToken;
    var tokens := head + EscapeEach(path);
    assert forall i :: 0 <= i < |head| ==> head[i] == tokens[i];
    assert forall i :: |head| <= i < |tokens| ==> tokens[i] == Escape(path[i - |head|]);
  }

  /** A pointer parses to the path of its prefix and then exactly the members it was built from. */
  lemma ParseBelow(prefix: string, path: Path)
    ensures Parse(prefix + Below(path))
         == if Parse(prefix).Some? then Some(Parse(prefix).value + path) else None
  {
    hide AllTokens, Each, Split, EscapeEach, Below;
    SplitBelow(prefix, path);
    EachBelow(Split(prefix), path);
  }

  // ----- When two pointers are one string -----

  function JoinTokens(tokens: seq<string>): string
    requires tokens != []
  {
    if |tokens| == 1 then tokens[0] else tokens[0] + "/" + JoinTokens(tokens[1..])
  }

  lemma {:induction false} JoinSplit(s: string)
    ensures JoinTokens(Split(s)) == s
  {
    if s != [] {
      var t := Split(s[1..]);
      JoinSplit(s[1..]);
      assert s == [s[0]] + s[1..];
      if s[0] == '/' {
        assert Split(s)[1..] == t;
      } else {
        assert Split(s)[1..] == t[1..];
        if |t| > 1 {
          var rest := "/" + JoinTokens(t[1..]);
          Assoc([s[0]], t[0], rest);
          Assoc(t[0], "/", JoinTokens(t[1..]));
          Assoc([s[0]] + t[0], "/", JoinTokens(t[1..]));
        }
      }
    }
  }

  lemma {:induction false} BelowAppend(a: Path, b: Path)
    ensures Below(a + b) == Below(a) + Below(b)
  {
    if a == [] {
      assert a + b == b;
    } else {
      hide Escape;
      BelowAppend(a[1..], b);
      assert (a + b)[1..] == a[1..] + b;
      Assoc("/" + Escape(a[0]), Below(a[1..]), Below(b));
    }
  }

  lemma EscapeEachInjective(a: Path, b: Path)
    requires EscapeEach(a) == EscapeEach(b)
    ensures a == b
  {
    hide Escape, Unescape;
    assert |a| == |EscapeEach(a)| == |EscapeEach(b)| == |b|;
    forall i | 0 <= i < |a| ensures a[i] == b[i] {
      assert EscapeEach(a)[i] == EscapeEach(b)[i];
      UnescapeEscape(a[i]);
      UnescapeEscape(b[i]);
    }
  }

  /** What stands before the members `p` in the pointer of the members `q` is the pointer of the members before them. */
  lemma BelowSuffix(t: string, p: Path, q: Path) returns (x: Path)
    requires t + Below(p) == Below(q)
    ensures t == Below(x) && q == x + p
  {
    hide Escape, Split, Below;
    SplitBelow(t, p);
    SplitBelow("", q);
    assert "" + Below(q) == Below(q);
    assert Split("") == [""] by { SplitWithoutSlash(""); }
    var k := |Split(t)| - 1;
    assert |Split(t) + EscapeEach(p)| == |[""] + EscapeEach(q)|;
    x := q[..k];
    SplitParts(Split(t), EscapeEach(p), q, k);
    EscapeEachInjective(p, q[k..]);
    SplitBelow("", x);
    assert "" + Below(x) == Below(x);
    JoinSplit(t);
    JoinSplit(Below(x));
  }

  lemma SplitParts(a: seq<string>, b: seq<string>, q: Path, k: nat)
    requires a + b == [""] + EscapeEach(q) && |a| == k + 1
    ensures k <= |q| && a == [""] + EscapeEach(q[..k]) && b == EscapeEach(q[k..])
  {
    hide Escape;
    var all := [""] + EscapeEach(q);
    assert |all| == 1 + |q|;
    assert a == all[..k + 1] && b == all[k + 1..];
    assert forall i :: 0 <= i < k ==> EscapeEach(q[..k])[i] == EscapeEach(q)[i];
    assert forall i :: 0 <= i < |q| - k ==> EscapeEach(q[k..])[i] == EscapeEach(q)[k + i];
  }

  /** Two keys with members below them give one string exactly when the longer key spells the pointer of some of the
      other's members, and the rest are its own. */
  lemma SamePointer(a: string, p: Path, b: string, q: Path)
    requires |a| >= |b|
    ensures a + Below(p) == b + Below(q) <==> exists x :: a == b + Below(x) && q == x + p
  {
    hide Below;
    if a + Below(p) == b + Below(q) {
      var t := a[|b|..];
      assert a[..|b|] == (a + Below(p))[..|b|] == (b + Below(q))[..|b|] == b;
      assert a == b + t;
      assert (a + Below(p))[|b|..] == t + Below(p) && (b + Below(q))[|b|..] == Below(q);
      var x := BelowSuffix(t, p, q);
    }
    if x :| a == b + Below(x) && q == x + p {
      BelowAppend(x, p);
      Assoc(b, Below(x), Below(p));
    }
  }

  // ----- Keys that stand for themselves -----

  predicate IsPlain(key: string) { '/' !in key && '~' !in key }

  lemma {:induction false} NoPairs(s: string, b: char, sub: char)
    requires '~' !in s
    ensures ReplacePair(s, '~', b, sub) == s
  {
    if s == [] {
    } else {
      NoPairs(s[1..], b, sub);
      assert [s[0]] + s[1..] == s;
    }
  }

  lemma {:induction false} PairsShrink(s: string, a: char, b: char, sub: char)
    ensures |ReplacePair(s, a, b, sub)| <= |s|
    ensures (exists i :: 0 < i < |s| && s[i - 1] == a && s[i] == b) ==> |ReplacePair(s, a, b, sub)| < |s|
    ensures (forall i :: 0 < i < |s| ==> !(s[i - 1] == a && s[i] == b)) ==> ReplacePair(s, a, b, sub) == s
  {
    if s == [] {
    } else if |s| >= 2 && s[0] == a && s[1] == b {
      PairsShrink(s[2..], a, b, sub);
    } else {
      PairsShrink(s[1..], a, b, sub);
      var t := s[1..];
      assert [s[0]] + t == s;
      assert forall i :: 0 < i < |t| ==> t[i - 1] == s[i] && t[i] == s[i + 1];
      if i :| 0 < i < |s| && s[i - 1] == a && s[i] == b {
        assert i > 1;
        assert t[i - 2] == a && t[i - 1] == b;
      }
    }
  }

  lemma UnescapeShrinks(s: string)
    requires IsToken(s)
    ensures |Unescape(s)| <= |s| && ('~' in s ==> |Unescape(s)| < |s|)
  {
    hide ReplacePair;
    var mid := ReplacePair(s, '~', '1', '/');
    PairsShrink(s, '~', '1', '/');
    PairsShrink(mid, '~', '0', '~');
    if k :| 0 <= k < |s| && s[k] == '~' {
      if exists i :: 0 < i < |s| && s[i - 1] == '~' && s[i] == '1' {
      } else {
        assert mid == s;
        assert s[(k + 1) - 1] == '~' && s[k + 1] == '0';
      }
    }
  }

  lemma {:induction false} FirstTokenShrinks(s: string)
    ensures |Split(s)[0]| <= |s| && ('/' in s ==> |Split(s)[0]| < |s|)
  {
    if s == [] || s[0] == '/' {
    } else {
      FirstTokenShrinks(s[1..]);
      assert s == [s[0]] + s[1..];
    }
  }

  /** A key that is not plain never names itself: it is no pointer at all or starts at a shorter key. */
  lemma ParseKey(key: string)
    ensures IsPlain(key) ==> Parse(key) == Some([key])
    ensures !IsPlain(key) && Parse(key).Some? ==> Parse(key).value != [] && |Parse(key).value[0]| < |key|
  {
    hide ReplacePair, Split;
    FirstTokenShrinks(key);
    var first := Split(key)[0];
    if '/' !in key {
      SplitWithoutSlash(key);
      if '~' !in key {
        NoPairs(key, '1', '/');
        NoPairs(key, '0', '~');
        assert IsToken(key);
        assert Each([key]) == [key];
      }
    }
    if Parse(key).Some? {
      assert IsToken(first);
      UnescapeShrinks(first);
    }
  }
}
