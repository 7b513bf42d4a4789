/** The list of paths that a storage server sends when it registers: the comma-joined
    text that start_storage_server builds, and how strtok takes it apart. */
module PathLists {
  import opened Types

  predicate CommaFree(p: Path) {
    COMMA !in p
  }

  /** What a list of paths must satisfy to survive the trip. */
  predicate Sendable(paths: seq<Path>) {
    forall p <- paths :: p != [] && CommaFree(p)
  }

  function Joined(paths: seq<Path>): Text {
    if paths == [] then [] else if |paths| == 1 then paths[0] else paths[0] + [COMMA] + Joined(paths[1..])
  }

  /** The number of commas that `s` starts with: strtok skips them. */
  function Commas(s: Text): (n: nat)
    ensures n <= |s| && (n < |s| ==> s[n] != COMMA)
    ensures forall i | 0 <= i < n :: s[i] == COMMA
  {
    if s == [] || s[0] != COMMA then 0 else 1 + Commas(s[1..])
  }

  /** The number of bytes before the next comma, or before the end. */
  function TokenLength(s: Text): (n: nat)
    ensures n <= |s| && (n < |s| ==> s[n] == COMMA)
    ensures forall i | 0 <= i < n :: s[i] != COMMA
  {
    if s == [] || s[0] == COMMA then 0 else 1 + TokenLength(s[1..])
  }

  /** strtok(s, ","): the first token, and what the call leaves in the buffer, where a NUL
      replaces the comma after the token. */
  function FirstToken(s: Text): Option<Text> {
    var t := s[Commas(s)..];
    if t == [] then None else Some(t[..TokenLength(t)])
  }

  function Truncated(s: Text): Text {
    s[..Commas(s) + TokenLength(s[Commas(s)..])]
  }

  /** strtok(NULL, ",") starts behind the comma. */
  function AfterToken(s: Text): (r: Text)
    requires FirstToken(s).Some?
    ensures |r| < |s|
  {
    var t := s[Commas(s)..];
    if TokenLength(t) < |t| then t[TokenLength(t) + 1..] else []
  }

  function Tokens(s: Text): seq<Text>
    decreases |s|
  {
    match FirstToken(s)
    case None => []
    case Some(t) => [t] + Tokens(AfterToken(s))
  }

  lemma CommasUnique(s: Text, n: nat)
    requires n <= |s| && (n < |s| ==> s[n] != COMMA) && forall i | 0 <= i < n :: s[i] == COMMA
    ensures Commas(s) == n
  {
  }

  lemma TokenLengthUnique(s: Text, n: nat)
    requires n <= |s| && (n < |s| ==> s[n] == COMMA) && forall i | 0 <= i < n :: s[i] != COMMA
    ensures TokenLength(s) == n
  {
  }

  /** After strtok the text holds its first path only. */
  lemma TruncatedTokens(s: Text)
    ensures Tokens(Truncated(s)) == if Tokens(s) == [] then [] else [Tokens(s)[0]]
  {
    hide Tokens, Commas, TokenLength;
    var n := Commas(s);
    if n == |s| {
      NoToken(s);
      NoToken(Truncated(s));
    } else {
      var l := TokenLength(s[n..]);
      assert forall i | n <= i < n + l :: s[i] == s[n..][i - n];
      TokenThere(s, n, l);
      TokenThere(Truncated(s), n, l);
      NoToken([]);
      assert Truncated(s)[n..n + l] == s[n..n + l];
    }
  }

  /** However often the naming server runs strtok on the text in its table, which each
      time cuts it off after the first token, it gets the same first token. */
  lemma FirstTokenStable(s: Text)
    ensures FirstToken(Truncated(s)) == FirstToken(s)
    ensures Truncated(Truncated(s)) == Truncated(s)
  {
    var n := Commas(s);
    var l := TokenLength(s[n..]);
    var t := Truncated(s);
    if n < |s| {
      assert l > 0;
      CommasUnique(t, n);
      TokenLengthUnique(t[n..], l);
      assert t[n..][..l] == s[n..][..l];
    }
  }

  lemma {:induction false} JoinedHead(paths: seq<Path>)
    requires Sendable(paths) && paths != []
    ensures FirstToken(Joined(paths)) == Some(paths[0])
    ensures AfterToken(Joined(paths)) == Joined(paths[1..])
  {
    var s, p := Joined(paths), paths[0];
    assert p in paths;
    assert s[..|p|] == p;
    assert s[0] == p[0] && p[0] in p;
    CommasUnique(s, 0);
    assert s[0..] == s;
    forall i | 0 <= i < |p| ensures s[i] != COMMA {
      assert s[i] == p[i] && p[i] in p;
    }
    TokenLengthUnique(s, |p|);
    if |paths| > 1 { assert s[|p| + 1..] == Joined(paths[1..]); }
  }

  /** The registration round trip: splitting the joined list gives the list back. */
  lemma {:induction false} TokensOfJoined(paths: seq<Path>)
    requires Sendable(paths)
    ensures Tokens(Joined(paths)) == paths
  {
    if paths != [] {
      JoinedHead(paths);
      forall p <- paths[1..] ensures p != [] && CommaFree(p) { assert p in paths; }
      TokensOfJoined(paths[1..]);
      assert [paths[0]] + paths[1..] == paths;
    }
  }

  /** The first token, by where it begins and how long it is. */
  lemma TokenThere(s: Text, n: nat, l: nat)
    requires n < |s| && s[n] != COMMA && forall i | 0 <= i < n :: s[i] == COMMA
    requires n + l <= |s| && (n + l < |s| ==> s[n + l] == COMMA) && forall i | n <= i < n + l :: s[i] != COMMA
    ensures Tokens(s) == [s[n..n + l]] + Tokens(if n + l < |s| then s[n + l + 1..] else [])
  {
    CommasUnique(s, n);
    TokenLengthUnique(s[n..], l);
    assert s[n..][..l] == s[n..n + l];
    if n + l < |s| { assert s[n..][l + 1..] == s[n + l + 1..]; }
  }

  lemma NoToken(s: Text)
    requires forall i | 0 <= i < |s| :: s[i] == COMMA
    ensures Tokens(s) == []
  {
    CommasUnique(s, |s|);
  }

  /** The first token of `a`, and what is left, also when a comma and more text follow. */
  lemma TokenBefore(a: Text, b: Text, n: nat, l: nat)
    requires n < |a| && a[n] != COMMA && forall i | 0 <= i < n :: a[i] == COMMA
    requires n + l <= |a| && (n + l < |a| ==> a[n + l] == COMMA) && forall i | n <= i < n + l :: a[i] != COMMA
    ensures Tokens(a) == [a[n..n + l]] + Tokens(if n + l < |a| then a[n + l + 1..] else [])
    ensures Tokens(a + [44] + b) == [a[n..n + l]] + Tokens(if n + l < |a| then a[n + l + 1..] + [44] + b else b)
  {
    hide Tokens;
    var s := a + [44] + b;
    TokenThere(a, n, l);
    assert forall i | 0 <= i < |a| :: s[i] == a[i];
    assert s[|a|] == COMMA;
    TokenThere(s, n, l);
    assert s[n..n + l] == a[n..n + l];
    assert s[n + l + 1..] == if n + l < |a| then a[n + l + 1..] + [44] + b else b;
  }

  /** The other way round, for any text: it is split at each comma, byte 44, and empty pieces
      are dropped. */
  lemma {:induction false} TokensSplit(a: Text, b: Text)
    ensures Tokens(a + [44] + b) == Tokens(a) + Tokens(b)
    decreases |a|
  {
    hide Tokens, Commas, TokenLength;
    var n := Commas(a);
    if n == |a| {
      NoToken(a);
      CommasInFront(a + [44], b);
    } else {
      var l := TokenLength(a[n..]);
      assert forall i | n <= i < n + l :: a[i] == a[n..][i - n];
      TokenBefore(a, b, n, l);
      if n + l < |a| { TokensSplit(a[n + l + 1..], b); } else { NoToken([]); }
    }
  }

  /** The first token of `b`, also when commas stand in front. */
  lemma TokenShifted(c: Text, b: Text, n: nat, l: nat)
    requires forall i | 0 <= i < |c| :: c[i] == COMMA
    requires n < |b| && b[n] != COMMA && forall i | 0 <= i < n :: b[i] == COMMA
    requires n + l <= |b| && (n + l < |b| ==> b[n + l] == COMMA) && forall i | n <= i < n + l :: b[i] != COMMA
    ensures Tokens(c + b) == Tokens(b)
  {
    hide Tokens;
    var s, m := c + b, |c| + n;
    TokenThere(b, n, l);
    assert forall i | |c| <= i < |s| :: s[i] == b[i - |c|];
    TokenThere(s, m, l);
    assert s[m..m + l] == b[n..n + l];
    assert n + l < |b| ==> s[m + l + 1..] == b[n + l + 1..];
  }

  lemma CommasInFront(c: Text, b: Text)
    requires forall i | 0 <= i < |c| :: c[i] == COMMA
    ensures Tokens(c + b) == Tokens(b)
  {
    hide Tokens, Commas, TokenLength;
    var n := Commas(b);
    if n == |b| {
      NoToken(c + b);
      NoToken(b);
    } else {
      var l := TokenLength(b[n..]);
      assert forall i | n <= i < n + l :: b[i] == b[n..][i - n];
      TokenShifted(c, b, n, l);
    }
  }

  lemma TokensOfOne(t: Text)
    requires 44 !in t
    ensures Tokens(t) == if t == [] then [] else [t]
  {
    hide Tokens;
    NoToken([]);
    if t != [] {
      forall i | 0 <= i < |t| ensures t[i] != COMMA { assert t[i] in t; }
      TokenThere(t, 0, |t|);
      assert t[0..0 + |t|] == t;
    }
  }

  /** Both directions in bytes, for two paths. */
  lemma TwoPaths(a: Path, b: Path)
    requires a != [] && b != [] && 44 !in a && 44 !in b
    ensures Sendable([a, b]) && Joined([a, b]) == a + [44] + b && Tokens(a + [44] + b) == [a, b]
  {
    TokensSplit(a, b);
    TokensOfOne(a);
    TokensOfOne(b);
  }

  /** The strcat loop of start_storage_server. */
  method JoinPaths(paths: seq<Path>) returns (list: Text)
    ensures list == Joined(paths)
  {
    list := [];
    var i := 0;
    while i < |paths|
      invariant 0 <= i <= |paths|
      invariant list + Joined(paths[i..]) == Joined(paths)
    {
      ghost var rest := paths[i..];
      assert rest[0] == paths[i] && rest[1..] == paths[i + 1..];
      ghost var before := list;
      list := list + paths[i];
      if i < |paths| - 1 {
        list := list + [COMMA];
        assert list + Joined(paths[i + 1..]) == before + (paths[i] + [COMMA] + Joined(rest[1..]));
      } else {
        assert list + Joined(paths[i + 1..]) == before + paths[i];
      }
      i := i + 1;
    }
    assert paths[i..] == [];
  }

  /** strtok, on a string of which `rest` is still to be searched. */
  method Strtok(rest: Text) returns (token: Option<Text>, rest': Text)
    ensures token == FirstToken(rest)
    ensures token.Some? ==> rest' == AfterToken(rest)
    ensures token.None? ==> rest' == []
  {
    hide Tokens, Commas, TokenLength;
    var i := 0;
    while i < |rest| && rest[i] == COMMA
      invariant 0 <= i <= |rest|
      invariant forall k | 0 <= k < i :: rest[k] == COMMA
    {
      i := i + 1;
    }
    CommasUnique(rest, i);
    if i == |rest| {
      return None, [];
    }
    var j := i;
    while j < |rest| && rest[j] != COMMA
      invariant i <= j <= |rest|
      invariant forall k | i <= k < j :: rest[k] != COMMA
    {
      j := j + 1;
    }
    TokenLengthUnique(rest[i..], j - i);
    assert rest[i..][..j - i] == rest[i..j];
    token := Some(rest[i..j]);
    rest' := if j < |rest| then rest[j + 1..] else [];
  }
}
