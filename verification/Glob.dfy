/** Interface name patterns: `*` stands for any run of characters, `?` for any one. */
module Glob {
  predicate Match(pattern: string, name: string)
    decreases |pattern| + |name|
  {
    if pattern == "" then name == ""
    else if pattern[0] == '*' then Match(pattern[1..], name) || (name != "" && Match(pattern, name[1..]))
    else if name == "" then false
    else (pattern[0] == '?' || pattern[0] == name[0]) && Match(pattern[1..], name[1..])
  }

  /** What one pattern character stands for. */
  predicate Stands(c: char, piece: string) {
    if c == '*' then true
    else if c == '?' then |piece| == 1
    else piece == [c]
  }

  function Concat(pieces: seq<string>): string { if |pieces| == 0 then "" else pieces[0] + Concat(pieces[1..]) }

  /** A name cut into one piece per pattern character. */
  predicate Decomposes(pattern: string, name: string, pieces: seq<string>) {
    |pieces| == |pattern| && Concat(pieces) == name && forall i :: 0 <= i < |pattern| ==> Stands(pattern[i], pieces[i])
  }

  /** A match has a decomposition. */
  lemma {:induction false} MatchDecomposes(pattern: string, name: string) returns (pieces: seq<string>)
    requires Match(pattern, name)
    ensures Decomposes(pattern, name, pieces)
    decreases |pattern| + |name|
  {
    if pattern == "" {
      pieces := [];
    } else if pattern[0] == '*' && !Match(pattern[1..], name) {
      var rest := MatchDecomposes(pattern, name[1..]);
      pieces := [[name[0]] + rest[0]] + rest[1..];
      assert pieces[1..] == rest[1..];
      assert Concat(pieces) == [name[0]] + Concat(rest) == name;
    } else {
      var first := if pattern[0] == '*' then "" else [name[0]];
      var rest := MatchDecomposes(pattern[1..], name[|first|..]);
      pieces := [first] + rest;
      assert pieces[1..] == rest && first + name[|first|..] == name;
      forall i | 0 <= i < |pattern|
        ensures Stands(pattern[i], pieces[i])
      {
        assert i > 0 ==> pattern[i] == pattern[1..][i - 1] && pieces[i] == rest[i - 1];
      }
    }
  }

  /** A decomposition makes a match. */
  lemma {:induction false} DecompositionMatches(pattern: string, name: string, pieces: seq<string>)
    requires Decomposes(pattern, name, pieces)
    ensures Match(pattern, name)
    decreases |pattern| + |name|
  {
    if pattern != "" {
      var rest := Concat(pieces[1..]);
      assert forall i :: 0 <= i < |pattern| - 1 ==>
             pattern[1..][i] == pattern[i + 1] && pieces[1..][i] == pieces[i + 1];
      if pattern[0] == '*' && pieces[0] != "" {
        var shorter := [pieces[0][1..]] + pieces[1..];
        assert shorter[1..] == pieces[1..];
        assert Concat(shorter) == pieces[0][1..] + rest == name[1..];
        DecompositionMatches(pattern, name[1..], shorter);
      } else {
        assert name[|pieces[0]|..] == rest;
        assert Stands(pattern[0], pieces[0]);
        DecompositionMatches(pattern[1..], rest, pieces[1..]);
      }
    }
  }

  /** A pattern matches a name exactly when the name can be cut to fit it. */
  lemma MatchIff(pattern: string, name: string)
    ensures Match(pattern, name) <==> exists pieces :: Decomposes(pattern, name, pieces)
  {
    if Match(pattern, name) {
      var pieces := MatchDecomposes(pattern, name);
    }
    if pieces :| Decomposes(pattern, name, pieces) {
      DecompositionMatches(pattern, name, pieces);
    }
  }
}
