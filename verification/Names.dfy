/** File names as stored in a node, and the strings in which paths and listings travel. */
module Names {
  import opened Words

  type Name = seq<byte>

  // ---------- the 17-byte field ----------

  /** The stored name: everything before the first zero byte, or the whole field. */
  function NameOf(fname: seq<byte>): (n: Name)
    ensures |n| <= |fname|
  {
    if fname == [] || fname[0] == 0 then [] else [fname[0]] + NameOf(fname[1..])
  }

  /** Copying `name` into the field: a zero byte follows if there is room, the rest keeps what was there. */
  function Stored(field: seq<byte>, name: Name): seq<byte>
    requires |name| <= |field|
  {
    if |name| < |field| then name + [0] + field[|name| + 1..] else name
  }

  lemma StoredEmpty(field: seq<byte>)
    ensures NameOf(Stored(field, [])) == []
  {
  }

  lemma StoredTail(field: seq<byte>, name: Name)
    requires 0 < |name| <= |field|
    ensures Stored(field, name) == [name[0]] + Stored(field[1..], name[1..])
  {
    if |name| < |field| {
      var rest := field[|name| + 1..];
      assert field[1..][|name|..] == rest;
      assert name == [name[0]] + name[1..];
      assert name + [0] + rest == [name[0]] + (name[1..] + [0] + rest);
    }
  }

  /** A name without zero bytes survives being stored, whatever the field held before. */
  lemma {:induction false} NameSurvives(field: seq<byte>, name: Name)
    requires |name| <= |field| && 0 !in name
    ensures NameOf(Stored(field, name)) == name
  {
    hide Stored;
    if name == [] {
      StoredEmpty(field);
    } else {
      NameSurvives(field[1..], name[1..]);
      StoredTail(field, name);
      assert Stored(field, name)[1..] == Stored(field[1..], name[1..]);
    }
  }

  /** The scan for the end of a stored name: it stops at the first zero byte or at the end of the field. */
  method StoredLength(fname: seq<byte>) returns (nodeSize: nat)
    ensures nodeSize <= |fname| && fname[..nodeSize] == NameOf(fname)
  {
    nodeSize := 0;
    var i := 0;
    while i < |fname|
      invariant nodeSize == i <= |fname|
      invariant NameOf(fname) == fname[..i] + NameOf(fname[i..])
    {
      if fname[i] == 0 { break; }
      assert fname[i..][1..] == fname[i + 1..];
      nodeSize := nodeSize + 1;
      i := i + 1;
    }
  }

  // ---------- strtok ----------

  /** The non-empty pieces between separators, in order. */
  function Tokens(sep: byte, s: seq<byte>): seq<Name>
    decreases |s|
  {
    if s == [] then []
    else if s[0] == sep then Tokens(sep, s[1..])
    else var n := Span(sep, s); [s[..n]] + Tokens(sep, s[n..])
  }

  /** How many bytes come before the first separator. */
  function Span(sep: byte, s: seq<byte>): (n: nat)
    ensures n <= |s| && sep !in s[..n] && (n < |s| ==> s[n] == sep)
    ensures s != [] && s[0] != sep ==> n > 0
  {
    if s == [] || s[0] == sep then 0
    else
      var n := Span(sep, s[1..]);
      assert s[..n + 1] == [s[0]] + s[1..][..n];
      n + 1
  }

  /** The names, each followed by a separator: how a listing is sent. */
  function JoinEach(sep: byte, names: seq<Name>): seq<byte> {
    if names == [] then [] else names[0] + [sep] + JoinEach(sep, names[1..])
  }

  /** The names, each preceded by a separator: how a path is spelled. */
  function Spelled(sep: byte, names: seq<Name>): seq<byte> {
    if names == [] then [] else [sep] + names[0] + Spelled(sep, names[1..])
  }

  lemma JoinNothing(sep: byte, names: seq<Name>)
    ensures names[0..] == names && JoinEach(sep, names[|names|..]) == []
  {
  }

  lemma JoinNext(sep: byte, names: seq<Name>, i: nat, s: seq<byte>)
    requires i < |names|
    ensures s + JoinEach(sep, names[i..]) == s + names[i] + [sep] + JoinEach(sep, names[i + 1..])
  {
    assert names[i..][1..] == names[i + 1..];
    var rest := JoinEach(sep, names[i + 1..]);
    assert JoinEach(sep, names[i..]) == names[i] + [sep] + rest;
    assert s + (names[i] + [sep] + rest) == s + names[i] + [sep] + rest;
  }

  /** How the server writes a listing into its reply. */
  method Join(sep: byte, names: seq<Name>) returns (s: seq<byte>)
    ensures s == JoinEach(sep, names)
  {
    hide JoinEach;
    JoinNothing(sep, names);
    s := [];
    var i := 0;
    while i < |names|
      invariant i <= |names|
      invariant JoinEach(sep, names) == s + JoinEach(sep, names[i..])
    {
      JoinNext(sep, names, i, s);
      s := s + names[i] + [sep];
      i := i + 1;
    }
  }

  /** The scan for the next separator. */
  method TokenEnd(sep: byte, s: seq<byte>, from: nat) returns (i: nat)
    requires from <= |s|
    ensures i == from + Span(sep, s[from..]) <= |s|
  {
    i := from;
    while i < |s| && s[i] != sep
      invariant from <= i <= |s| && Span(sep, s[from..]) == i - from + Span(sep, s[i..])
    {
      assert s[i..][1..] == s[i + 1..];
      i := i + 1;
    }
  }

  /** How both sides take a string apart: skip separators, then take bytes up to the next one. */
  method Split(sep: byte, s: seq<byte>) returns (names: seq<Name>)
    ensures names == Tokens(sep, s)
  {
    hide Span;
    names := [];
    var i := 0;
    while i < |s|
      invariant i <= |s|
      invariant Tokens(sep, s) == names + Tokens(sep, s[i..])
    {
      if s[i] == sep {
        assert s[i..][1..] == s[i + 1..];
        i := i + 1;
      } else {
        var end := TokenEnd(sep, s, i);
        assert s[i..][..end - i] == s[i..end] && s[i..][end - i..] == s[end..];
        names := names + [s[i..end]];
        i := end;
      }
    }
  }

  predicate Separable(sep: byte, names: seq<Name>) {
    forall i :: 0 <= i < |names| ==> names[i] != [] && sep !in names[i]
  }

  lemma FirstToken(sep: byte, name: Name, rest: seq<byte>)
    requires name != [] && sep !in name && (rest == [] || rest[0] == sep)
    ensures Tokens(sep, name + rest) == [name] + Tokens(sep, rest)
  {
    var s := name + rest;
    assert s[..|name|] == name && s[|name|..] == rest;
  }

  /** Splitting a listing gives back the names, in order. */
  lemma {:induction false} SplitJoined(sep: byte, names: seq<Name>)
    requires Separable(sep, names)
    ensures Tokens(sep, JoinEach(sep, names)) == names
  {
    if names == [] {
    } else {
      var rest := [sep] + JoinEach(sep, names[1..]);
      assert names[0] + [sep] + JoinEach(sep, names[1..]) == names[0] + rest;
      FirstToken(sep, names[0], rest);
      assert rest[1..] == JoinEach(sep, names[1..]);
      SplitJoined(sep, names[1..]);
    }
  }

  /** Splitting a spelled path gives back its names. */
  lemma {:induction false} SplitSpelled(sep: byte, names: seq<Name>)
    requires Separable(sep, names)
    ensures Tokens(sep, Spelled(sep, names)) == names
  {
    if names == [] {
    } else {
      var rest := Spelled(sep, names[1..]);
      assert Spelled(sep, names)[1..] == names[0] + rest by {
        assert [sep] + names[0] + rest == [sep] + (names[0] + rest);
      }
      FirstToken(sep, names[0], rest);
      SplitSpelled(sep, names[1..]);
    }
  }
}
