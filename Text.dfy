/** The text normalisation of the todo CLI: the trailing arguments are joined with single
    spaces and trimmed (`args.join(" ").trim()`), and a result that is empty is refused. */
module Text {

  /** White space as JavaScript's `trim` and `parseInt` skip it, restricted to ASCII. */
  predicate IsSpace(c: char) {
    c == ' ' || c == '\t' || c == '\n' || c == '\r' || c == '\U{B}' || c == '\U{C}'
  }

  /** Every character is white space (the empty string included). */
  predicate IsBlank(s: string) {
    forall i :: 0 <= i < |s| ==> IsSpace(s[i])
  }

  /** Neither end of `s` is white space. */
  predicate IsTrimmed(s: string) {
    s == [] || (!IsSpace(s[0]) && !IsSpace(s[|s| - 1]))
  }

  /** `s` without its leading white space. */
  function TrimStart(s: string): (r: string)
    ensures |r| <= |s|
  {
    if s != [] && IsSpace(s[0]) then TrimStart(s[1..]) else s
  }

  /** `TrimStart` keeps the longest suffix of `s` that does not start with white space. */
  lemma {:induction false} TrimStartSuffix(s: string)
    ensures var r := TrimStart(s);
      |r| <= |s| && r == s[|s| - |r|..] && IsBlank(s[..|s| - |r|]) && (r == [] || !IsSpace(r[0]))
  {
    if s != [] && IsSpace(s[0]) {
      var tail := s[1..];
      TrimStartSuffix(tail);
      var r := TrimStart(tail);
      assert r == s[|s| - |r|..];
      assert s[..|s| - |r|] == [s[0]] + tail[..|tail| - |r|];
      BlankConcat([s[0]], tail[..|tail| - |r|]);
    }
  }

  /** `s` without its trailing white space. */
  function TrimEnd(s: string): (r: string)
    ensures |r| <= |s|
  {
    if s != [] && IsSpace(s[|s| - 1]) then TrimEnd(s[..|s| - 1]) else s
  }

  /** `TrimEnd` keeps the longest prefix of `s` that does not end with white space. */
  lemma {:induction false} TrimEndPrefix(s: string)
    ensures var r := TrimEnd(s);
      |r| <= |s| && r == s[..|r|] && IsBlank(s[|r|..]) && (r == [] || !IsSpace(r[|r| - 1]))
  {
    if s != [] && IsSpace(s[|s| - 1]) {
      var init := s[..|s| - 1];
      TrimEndPrefix(init);
      var r := TrimEnd(init);
      assert r == s[..|r|];
      assert s[|r|..] == init[|r|..] + [s[|s| - 1]];
      BlankConcat(init[|r|..], [s[|s| - 1]]);
    }
  }

  /** A concatenation is blank exactly when both parts are. */
  lemma BlankConcat(a: string, b: string)
    ensures IsBlank(a + b) <==> IsBlank(a) && IsBlank(b)
  {
    if IsBlank(a + b) {
      assert forall i :: 0 <= i < |a| ==> a[i] == (a + b)[i];
      assert forall i :: 0 <= i < |b| ==> b[i] == (a + b)[|a| + i];
    }
  }

  /** `String.prototype.trim`: white space removed at both ends; empty exactly when `s` is blank. */
  function Trim(s: string): (r: string)
    ensures IsTrimmed(r)
    ensures r == [] <==> IsBlank(s)
  {
    var t := TrimStart(s);
    TrimStartSuffix(s);
    assert s == s[..|s| - |t|] + t;
    BlankConcat(s[..|s| - |t|], t);
    var r := TrimEnd(t);
    TrimEndPrefix(t);
    assert r == [] ==> t == t[|r|..];
    r
  }

  /** What `Trim` removes is white space, and what it keeps is an infix of `s`. */
  lemma TrimIsInfix(s: string)
    ensures var k := |s| - |TrimStart(s)|; var r := Trim(s);
      k + |r| <= |s| && r == s[k..k + |r|] && IsBlank(s[..k]) && IsBlank(s[k + |r|..])
  {
    var t := TrimStart(s);
    var r := TrimEnd(t);
    var k := |s| - |t|;
    TrimStartSuffix(s);
    TrimEndPrefix(t);
    assert t == s[k..];
    assert s[k..k + |r|] == t[..|r|];
    assert s[k + |r|..] == t[|r|..];
  }

  /** Trimming changes nothing exactly on strings already trimmed, so trimming twice is trimming once. */
  lemma TrimFixedPoints(s: string)
    ensures Trim(s) == s <==> IsTrimmed(s)
    ensures Trim(Trim(s)) == Trim(s)
  {
    if IsTrimmed(s) && s != [] {
      assert TrimStart(s) == s;
      assert TrimEnd(s) == s;
    }
    var t := Trim(s);
    if t != [] {
      assert TrimStart(t) == t;
      assert TrimEnd(t) == t;
    }
  }

  /** `args.join(" ")`: the arguments in order, separated by one space each. */
  function Join(args: seq<string>): (r: string)
  {
    if |args| == 0 then ""
    else if |args| == 1 then args[0]
    else args[0] + " " + Join(args[1..])
  }

  /** The joined text is blank exactly when every argument is (the separator is a space). */
  lemma {:induction false} JoinBlank(args: seq<string>)
    ensures IsBlank(Join(args)) <==> forall i :: 0 <= i < |args| ==> IsBlank(args[i])
  {
    if |args| > 1 {
      JoinBlank(args[1..]);
      var j := Join(args);
      var rest := Join(args[1..]);
      assert j == args[0] + " " + rest;
      if IsBlank(j) {
        assert forall i :: 0 <= i < |args[0]| ==> j[i] == args[0][i];
        assert forall i :: 0 <= i < |rest| ==> j[|args[0]| + 1 + i] == rest[i];
        assert IsBlank(rest);
        forall i | 0 <= i < |args| ensures IsBlank(args[i]) {
          if i > 0 { assert args[i] == args[1..][i - 1]; }
        }
      }
      if forall i :: 0 <= i < |args| ==> IsBlank(args[i]) {
        forall i | 0 <= i < |args| - 1 ensures IsBlank(args[1..][i]) {
          assert args[1..][i] == args[i + 1];
        }
        assert IsBlank(rest);
        assert IsBlank(args[0]);
        forall i | 0 <= i < |j| ensures IsSpace(j[i]) {
          if i < |args[0]| {
            assert j[i] == args[0][i];
          } else if i > |args[0]| {
            assert j[i] == rest[i - |args[0]| - 1];
          }
        }
      }
    }
  }

  /** `args.join(" ").trim()` (todo.js:34 and todo.js:67): trimmed, and empty exactly when every
      argument is blank, which is when `add` and `update` refuse the text. */
  function NormalizeText(args: seq<string>): (r: string)
    ensures IsTrimmed(r)
    ensures r == [] <==> forall i :: 0 <= i < |args| ==> IsBlank(args[i])
  {
    JoinBlank(args);
    Trim(Join(args))
  }
}
