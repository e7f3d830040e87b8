/** Normalising the pebble options of a store flag, and printing them back. */
module PebbleOptions {
  /** Whitespace of one byte. */
  predicate Narrow(c: char) {
    c == ' ' || ('\t' <= c <= '\r')
  }

  /** Whitespace that takes several bytes in UTF-8, whose first byte is no whitespace. */
  predicate Wide(c: char) {
    || c == '\U{85}' || c == '\U{A0}' || c == '\U{1680}' || '\U{2000}' <= c <= '\U{200A}'
    || c == '\U{2028}' || c == '\U{2029}' || c == '\U{202F}' || c == '\U{205F}' || c == '\U{3000}'
  }

  /** unicode.IsSpace */
  predicate IsSpace(c: char) {
    Narrow(c) || Wide(c)
  }

  /** The whitespace of Unicode, told apart by whether UTF-8 takes one byte for it. */
  lemma SpacesAre(c: char)
    ensures Narrow(c) <==> c as int in {0x09, 0x0a, 0x0b, 0x0c, 0x0d, 0x20}
    ensures Wide(c) <==> c as int in {0x85, 0xa0, 0x1680, 0x2028, 0x2029, 0x202f, 0x205f, 0x3000}
                         || 0x2000 <= c as int <= 0x200a
  {
  }

  function TrimLeft(s: string): (r: string)
    ensures |r| <= |s|
    ensures r != [] ==> !IsSpace(r[0])
  {
    if s != [] && IsSpace(s[0]) then TrimLeft(s[1..]) else s
  }

  function TrimRight(s: string): (r: string)
    ensures |r| <= |s|
    ensures r != [] ==> !IsSpace(r[|r| - 1])
  {
    if s != [] && IsSpace(s[|s| - 1]) then TrimRight(s[..|s| - 1]) else s
  }

  function TrimSpace(s: string): string {
    TrimRight(TrimLeft(s))
  }

  predicate NoTrailingSpace(s: string) {
    s != [] ==> !IsSpace(s[|s| - 1])
  }

  /** Index of the first bracket or whitespace; the length when there is none. */
  function StopIndex(s: string): (i: nat)
    ensures i <= |s|
  {
    if s == [] || s[0] == '[' || IsSpace(s[0]) then 0 else 1 + StopIndex(s[1..])
  }

  /** Index of the first closing bracket; the length when there is none. */
  function CloseIndex(s: string): (i: nat)
    ensures i <= |s|
  {
    if s == [] || s[0] == ']' then 0 else 1 + CloseIndex(s[1..])
  }

  /**
   * Every bracket the scan reaches is closed later, and it reaches no wide
   * whitespace: any there is stands in brackets or in a run that starts narrow.
   */
  predicate Balanced(s: string)
    decreases |s|
  {
    if s == [] then true
    else if s[0] == '[' then CloseIndex(s) < |s| && Balanced(s[CloseIndex(s) + 1..])
    else if Narrow(s[0]) then Balanced(TrimLeft(s[1..]))
    else !Wide(s[0]) && Balanced(s[1..])
  }

  /**
   * The normal form: bracketed text stays as it is, a run of whitespace outside
   * brackets becomes one newline, everything else stays. With `flat`, newlines
   * within brackets become spaces. Text from an unclosed bracket or from wide
   * whitespace on has none.
   */
  function Normal(s: string, flat: bool): string
    decreases |s|
  {
    if s == [] then []
    else if s[0] == '[' then
      var c := CloseIndex(s);
      if c == |s| then []
      else (if flat then Print(s[..c + 1]) else s[..c + 1]) + Normal(s[c + 1..], flat)
    else if Narrow(s[0]) then "\n" + Normal(TrimLeft(s[1..]), flat)
    else if Wide(s[0]) then []
    else [s[0]] + Normal(s[1..], flat)
  }

  function Printed(c: char): char {
    if c == '\n' then ' ' else c
  }

  /** How StoreSpec.String prints the options: newlines become spaces. */
  function Print(s: string): (r: string)
    ensures |r| == |s|
  {
    if s == [] then [] else [Printed(s[0])] + Print(s[1..])
  }

  /** One turn of the loop: what it writes and what it leaves. */
  function Turn(v: string): (string, string)
    requires v != []
  {
    TurnAt(v[..StopIndex(v)], v[StopIndex(v)..])
  }

  /** A turn on text that is cut at the first bracket or whitespace. */
  function TurnAt(p: string, rest: string): (string, string) {
    if rest == [] then (p, [])
    else if rest[0] == '[' then
      var c := CloseIndex(rest);
      if c < |rest| then (p + rest[..c + 1], rest[c + 1..]) else (p, rest)
    else if Narrow(rest[0]) then (p + "\n", TrimSpace(rest[1..]))
    else ([], p + rest)
  }

  predicate Plain(p: string) {
    forall k :: 0 <= k < |p| ==> p[k] != '[' && !IsSpace(p[k])
  }

  lemma {:induction false} StopIndexIsFirst(v: string)
    ensures Plain(v[..StopIndex(v)])
    ensures StopIndex(v) < |v| ==> v[StopIndex(v)] == '[' || IsSpace(v[StopIndex(v)])
  {
    var i := StopIndex(v);
    if i > 0 {
      StopIndexIsFirst(v[1..]);
      assert v[..i] == [v[0]] + v[1..][..i - 1];
    }
  }

  lemma PlainChar(v: string, flat: bool)
    requires v != [] && v[0] != '[' && !IsSpace(v[0])
    ensures Balanced(v) <==> Balanced(v[1..])
    ensures Normal(v, flat) == [v[0]] + Normal(v[1..], flat)
  {
  }

  lemma ConsAppend<T>(p: seq<T>, rest: seq<T>, n: seq<T>)
    requires p != []
    ensures (p + rest)[0] == p[0] && (p + rest)[1..] == p[1..] + rest
    ensures [p[0]] + (p[1..] + n) == p + n
  {
  }

  /** Text without brackets and whitespace stays as it is. */
  lemma {:induction false} PlainText(p: string, rest: string, flat: bool)
    requires Plain(p)
    ensures Balanced(p + rest) <==> Balanced(rest)
    ensures Normal(p + rest, flat) == p + Normal(rest, flat)
  {
    if p == [] {
      assert p + rest == rest;
    } else {
      ConsAppend(p, rest, Normal(rest, flat));
      PlainChar(p + rest, flat);
      PlainText(p[1..], rest, flat);
    }
  }

  /** A stanza in brackets stays as it is. */
  lemma Stanza(v: string, flat: bool)
    requires v != [] && v[0] == '['
    ensures CloseIndex(v) == |v| ==> !Balanced(v)
    ensures CloseIndex(v) < |v| ==>
              var end := CloseIndex(v) + 1;
              && (Balanced(v) <==> Balanced(v[end..]))
              && Normal(v, flat) == (if flat then Print(v[..end]) else v[..end]) + Normal(v[end..], flat)
  {
  }

  /** A run of whitespace that starts narrow becomes one newline. */
  lemma Blank(v: string, flat: bool)
    requires v != [] && Narrow(v[0]) && NoTrailingSpace(v)
    ensures var t := TrimSpace(v[1..]);
            && (Balanced(v) <==> Balanced(t))
            && Normal(v, flat) == "\n" + Normal(t, flat)
            && t != [] && NoTrailingSpace(t) && |t| < |v|
  {
    TrimIsTrimLeft(v[1..]);
    TrimLeftSuffix(v[1..]);
  }

  /** A turn keeps balance, makes progress on balanced text, and writes what the normal form starts with. */
  ghost predicate GoodTurn(v: string, written: string, left: string) {
    && (Balanced(left) <==> Balanced(v))
    && NoTrailingSpace(left)
    && (Balanced(v) ==> |left| < |v| && Normal(v, false) == written + Normal(left, false))
  }

  lemma BracketTurn(p: string, rest: string)
    requires Plain(p) && rest != [] && rest[0] == '[' && NoTrailingSpace(rest)
    ensures var c := CloseIndex(rest);
            if c < |rest| then GoodTurn(p + rest, p + rest[..c + 1], rest[c + 1..]) else GoodTurn(p + rest, p, rest)
  {
    PlainText(p, rest, false);
    Stanza(rest, false);
    var c := CloseIndex(rest);
    if c < |rest| {
      Regroup(p, rest[..c + 1], Normal(rest[c + 1..], false));
    }
  }

  lemma WideTurn(p: string, rest: string)
    requires Plain(p) && rest != [] && Wide(rest[0]) && NoTrailingSpace(rest)
    ensures GoodTurn(p + rest, [], p + rest)
  {
    PlainText(p, rest, false);
  }

  lemma BlankTurn(p: string, rest: string)
    requires Plain(p) && rest != [] && Narrow(rest[0]) && NoTrailingSpace(rest)
    ensures GoodTurn(p + rest, p + "\n", TrimSpace(rest[1..]))
  {
    PlainText(p, rest, false);
    Blank(rest, false);
    Regroup(p, "\n", Normal(TrimSpace(rest[1..]), false));
  }

  lemma LastTurn(p: string)
    requires Plain(p) && p != []
    ensures GoodTurn(p, p, [])
  {
    PlainText(p, [], false);
    assert p + [] == p;
  }

  lemma TurnAtIsNormal(p: string, rest: string)
    requires Plain(p) && p + rest != [] && NoTrailingSpace(p + rest)
    requires rest != [] ==> rest[0] == '[' || IsSpace(rest[0])
    ensures GoodTurn(p + rest, TurnAt(p, rest).0, TurnAt(p, rest).1)
  {
    if rest == [] {
      assert p + rest == p;
      LastTurn(p);
    } else {
      assert (p + rest)[|p + rest| - 1] == rest[|rest| - 1];
      if rest[0] == '[' {
        BracketTurn(p, rest);
      } else if Narrow(rest[0]) {
        BlankTurn(p, rest);
      } else {
        WideTurn(p, rest);
      }
    }
  }

  lemma TurnIsNormal(v: string)
    requires v != [] && NoTrailingSpace(v)
    ensures GoodTurn(v, Turn(v).0, Turn(v).1)
  {
    var i := StopIndex(v);
    StopIndexIsFirst(v);
    assert v == v[..i] + v[i..];
    TurnAtIsNormal(v[..i], v[i..]);
  }

  lemma TurnSlices(v: string, i: nat, c: nat)
    requires i <= |v|
    ensures i < |v| ==> v[i..][1..] == v[i + 1..]
    ensures c < |v[i..]| ==> v[i..][c + 1..] == v[i + c + 1..] && v[..i] + v[i..][..c + 1] == v[..i + c + 1]
  {
  }

  lemma {:induction false} TrimLeftSuffix(s: string)
    ensures NoTrailingSpace(s) ==> NoTrailingSpace(TrimLeft(s))
    ensures s != [] && NoTrailingSpace(s) ==> TrimLeft(s) != []
  {
    if s != [] && IsSpace(s[0]) {
      TrimLeftSuffix(s[1..]);
    }
  }

  lemma TrimIsTrimLeft(s: string)
    requires NoTrailingSpace(s)
    ensures TrimSpace(s) == TrimLeft(s)
  {
    TrimLeftSuffix(s);
  }

  /** What is left to scan after n turns. */
  function LeftAfter(v: string, n: nat): string {
    if n == 0 then v
    else
      var w := LeftAfter(v, n - 1);
      if w == [] then [] else Turn(w).1
  }

  lemma {:induction false} LeftKeepsBalance(v: string, n: nat)
    requires NoTrailingSpace(v)
    ensures NoTrailingSpace(LeftAfter(v, n)) && (Balanced(LeftAfter(v, n)) <==> Balanced(v))
    ensures Balanced(v) ==> |LeftAfter(v, n)| <= if n <= |v| then |v| - n else 0
  {
    if n > 0 {
      LeftKeepsBalance(v, n - 1);
      var w := LeftAfter(v, n - 1);
      if w != [] {
        TurnIsNormal(w);
      }
    }
  }

  /** The loop ends if and only if it reaches no unclosed bracket and no wide whitespace. */
  lemma LoopEndsIffBalanced(value: string)
    ensures Balanced(TrimSpace(value)) <==> exists n :: LeftAfter(TrimSpace(value), n) == []
  {
    var v := TrimSpace(value);
    LeftKeepsBalance(v, |v|);
    forall n | LeftAfter(v, n) == []
      ensures Balanced(v)
    {
      LeftKeepsBalance(v, n);
    }
  }

  /** On an unclosed bracket the loop never moves on. */
  lemma {:induction false} UnclosedBracketSpins(n: nat)
    ensures TrimSpace("[") == "[" && LeftAfter("[", n) == "["
  {
    if n > 0 {
      UnclosedBracketSpins(n - 1);
      assert "["[..0] == "" && "["[0..] == "[" && "["[1..] == "";
      assert StopIndex("[") == 0 && CloseIndex("[") == 1;
    }
  }

  /** On wide whitespace the loop never moves on. */
  lemma {:induction false} WideSpaceSpins(n: nat)
    ensures var v := "a\U{A0}b"; TrimSpace(v) == v && LeftAfter(v, n) == v
  {
    var v := "a\U{A0}b";
    if n > 0 {
      WideSpaceSpins(n - 1);
      assert v[1..][0] == '\U{A0}' && StopIndex(v[1..]) == 0;
      assert v[..1] + v[1..] == v;
    }
  }

  /**
   * One turn in terms of the text alone: up to the first bracket or whitespace,
   * then the bracket up to where it closes, or a newline for the whole run of
   * whitespace.
   */
  ghost predicate OneTurn(v: string, written: string, left: string) {
    || (written == v && left == [] && Plain(v))
    || (exists i: nat, j: nat :: BracketAt(v, i, j) && written == v[..j + 1] && left == v[j + 1..])
    || (exists i: nat, m: nat :: SpacesAt(v, i, m) && written == v[..i] + "\n" && left == v[m..])
  }

  /** The first bracket, with no whitespace before it, opens at i and closes at j. */
  ghost predicate BracketAt(v: string, i: nat, j: nat) {
    && i < j < |v| && Plain(v[..i]) && v[i] == '[' && v[j] == ']'
    && forall k :: i <= k < j ==> v[k] != ']'
  }

  /** The first run of whitespace, with no bracket before it, is from i up to m. */
  ghost predicate SpacesAt(v: string, i: nat, m: nat) {
    && i < m < |v| && Plain(v[..i]) && (forall k :: i <= k < m ==> IsSpace(v[k])) && !IsSpace(v[m])
  }

  lemma {:induction false} CloseIndexIsFirst(s: string)
    ensures forall k :: 0 <= k < CloseIndex(s) ==> s[k] != ']'
  {
    if s != [] && s[0] != ']' {
      CloseIndexIsFirst(s[1..]);
      assert forall k :: 1 <= k < |s| ==> s[k] == s[1..][k - 1];
    }
  }

  lemma {:induction false} TrimLeftIsRest(s: string) returns (m: nat)
    ensures m <= |s| && TrimLeft(s) == s[m..] && forall k :: 0 <= k < m ==> IsSpace(s[k])
  {
    if s != [] && IsSpace(s[0]) {
      var n := TrimLeftIsRest(s[1..]);
      m := n + 1;
      assert forall k :: 1 <= k < m ==> s[k] == s[1..][k - 1];
    } else {
      m := 0;
    }
  }

  lemma BracketInText(v: string, i: nat)
    requires i < |v| && Plain(v[..i]) && v[i] == '[' && CloseIndex(v[i..]) < |v[i..]|
    ensures BracketAt(v, i, i + CloseIndex(v[i..]))
  {
    var rest := v[i..];
    CloseIndexIsFirst(rest);
    CloseIndexIsClose(rest);
    assert forall k :: i <= k < |v| ==> v[k] == rest[k - i];
  }

  lemma SpacesInText(v: string, i: nat) returns (m: nat)
    requires i < |v| && Plain(v[..i]) && IsSpace(v[i]) && NoTrailingSpace(v)
    ensures SpacesAt(v, i, m) && TrimSpace(v[i + 1..]) == v[m..]
  {
    var rest := v[i + 1..];
    TrimIsTrimLeft(rest);
    TrimLeftSuffix(rest);
    var n := TrimLeftIsRest(rest);
    m := i + 1 + n;
    assert rest[n..] == v[m..];
    assert forall k :: i + 1 <= k < |v| ==> v[k] == rest[k - i - 1];
  }

  /** A turn on text that can be scanned is as the text alone says. */
  lemma TurnInText(v: string)
    requires v != [] && NoTrailingSpace(v) && Balanced(v)
    ensures OneTurn(v, Turn(v).0, Turn(v).1)
  {
    var i := StopIndex(v);
    StopIndexIsFirst(v);
    if i == |v| {
      assert v[..i] == v;
    } else {
      MustMove(v);
      TurnSlices(v, i, CloseIndex(v[i..]));
      if v[i] == '[' {
        BracketInText(v, i);
      } else {
        var m := SpacesInText(v, i);
      }
    }
  }

  /** The body of the normalising loop, on text that can be scanned. */
  method TakeTurn(value: string) returns (written: string, left: string)
    requires value != [] && NoTrailingSpace(value) && Balanced(value)
    ensures (written, left) == Turn(value)
  {
    StopIndexIsFirst(value);
    var i := StopIndex(value);
    TurnSlices(value, i, CloseIndex(value[i..]));
    if i == |value| {
      assert value[..i] == value;
      return value, [];
    }
    MustMove(value);
    if value[i] == '[' {
      var j := i + CloseIndex(value[i..]);
      return value[..j + 1], value[j + 1..];
    }
    return value[..i] + "\n", TrimSpace(value[i + 1..]);
  }

  /** The normalising loop of NewStoreSpec, on text for which it ends. */
  method Normalize(text: string) returns (out: string)
    requires Balanced(TrimSpace(text))
    ensures out == Normal(TrimSpace(text), false)
  {
    var value := TrimSpace(text);
    out := "";
    while |value| > 0
      invariant NoTrailingSpace(value) && Balanced(value)
      invariant out + Normal(value, false) == Normal(TrimSpace(text), false)
      decreases |value|
    {
      TurnIsNormal(value);
      var written, left := TakeTurn(value);
      Regroup(out, written, Normal(left, false));
      out, value := out + written, left;
    }
  }

  lemma NextMoves(rest: string)
    requires rest != [] && Balanced(rest) && (rest[0] == '[' || IsSpace(rest[0]))
    ensures rest[0] == '[' ==> CloseIndex(rest) < |rest|
    ensures rest[0] != '[' ==> Narrow(rest[0])
  {
  }

  lemma MustMove(v: string)
    requires v != [] && NoTrailingSpace(v) && Balanced(v) && StopIndex(v) < |v|
    ensures v[StopIndex(v)] == '[' ==> CloseIndex(v[StopIndex(v)..]) < |v[StopIndex(v)..]|
    ensures v[StopIndex(v)] != '[' ==> Narrow(v[StopIndex(v)])
  {
    var i := StopIndex(v);
    var p, rest := v[..i], v[i..];
    StopIndexIsFirst(v);
    assert v == p + rest;
    PlainText(p, rest, false);
    NextMoves(rest);
  }

  lemma Regroup(a: string, b: string, c: string)
    ensures (a + b) + c == a + (b + c)
  {
  }

  lemma {:induction false} PrintAppend(a: string, b: string)
    ensures Print(a + b) == Print(a) + Print(b)
  {
    if a == [] {
      assert a + b == b;
    } else {
      assert (a + b)[1..] == a[1..] + b;
      PrintAppend(a[1..], b);
    }
  }

  lemma {:induction false} PrintAt(s: string, i: nat)
    requires i < |s|
    ensures Print(s)[i] == Printed(s[i])
  {
    if i > 0 {
      PrintAt(s[1..], i - 1);
    }
  }

  /** Printing replaces every newline by a space and nothing else. */
  lemma PrintIs(s: string, i: nat)
    requires i < |s|
    ensures Print(s)[i] == if s[i] == '\n' then ' ' else s[i]
  {
    PrintAt(s, i);
  }

  /** Printing a stanza keeps where it closes. */
  lemma {:induction false} PrintedStanzaCloses(s: string, rest: string)
    requires CloseIndex(s) < |s|
    ensures CloseIndex(Print(s[..CloseIndex(s) + 1]) + rest) == CloseIndex(s)
    ensures Print(s[..CloseIndex(s) + 1])[0] == Printed(s[0])
  {
    var stanza := s[..CloseIndex(s) + 1];
    var w := Print(stanza) + rest;
    assert w[0] == Printed(s[0]);
    if s[0] != ']' {
      assert stanza[1..] == s[1..][..CloseIndex(s[1..]) + 1];
      PrintedStanzaCloses(s[1..], rest);
      assert w[1..] == Print(stanza[1..]) + rest;
    }
  }

  lemma EndsAppend(a: string, b: string)
    requires a != [] && NoTrailingSpace(b) && (b == [] ==> NoTrailingSpace(a))
    ensures NoTrailingSpace(a + b) && (a + b)[0] == a[0]
  {
  }

  /** Where a normal form starts and ends. */
  lemma {:induction false} NormalEnds(s: string)
    requires NoTrailingSpace(s) && Balanced(s)
    ensures NoTrailingSpace(Normal(s, false))
    ensures s != [] ==> Normal(s, false) != []
    ensures s != [] && !IsSpace(s[0]) ==> Normal(s, false)[0] == s[0]
    decreases |s|
  {
    if s != [] {
      if s[0] == '[' {
        var end := CloseIndex(s) + 1;
        CloseIndexIsClose(s);
        Stanza(s, false);
        NormalEnds(s[end..]);
        EndsAppend(s[..end], Normal(s[end..], false));
      } else if Narrow(s[0]) {
        Blank(s, false);
        NormalEnds(TrimSpace(s[1..]));
        EndsAppend("\n", Normal(TrimSpace(s[1..]), false));
      } else {
        PlainChar(s, false);
        NormalEnds(s[1..]);
        EndsAppend([s[0]], Normal(s[1..], false));
      }
    }
  }

  lemma {:induction false} CloseIndexIsClose(s: string)
    ensures CloseIndex(s) < |s| ==> s[CloseIndex(s)] == ']'
  {
    if s != [] && s[0] != ']' {
      CloseIndexIsClose(s[1..]);
    }
  }

  /** Normalising printed options gives the options back, except that newlines within brackets are now spaces. */
  lemma {:induction false} PrintedNormal(s: string)
    requires NoTrailingSpace(s) && Balanced(s)
    ensures Balanced(Print(Normal(s, false)))
    ensures Normal(Print(Normal(s, false)), false) == Normal(s, true)
    decreases |s|
  {
    if s != [] {
      if s[0] == '[' {
        var later := s[CloseIndex(s) + 1..];
        PrintedNormal(later);
        StanzaPrinted(s, later, Normal(later, false));
      } else if Narrow(s[0]) {
        BlankPrinted(s);
      } else {
        PlainChar(s, false);
        PlainChar(s, true);
        PrintedNormal(s[1..]);
        var w := Print(Normal(s, false));
        assert w[0] == s[0] && w[1..] == Print(Normal(s[1..], false));
        PlainChar(w, false);
      }
    }
  }

  lemma StanzaPrinted(s: string, later: string, n: string)
    requires Balanced(s) && s != [] && s[0] == '[' && CloseIndex(s) < |s|
    requires later == s[CloseIndex(s) + 1..] && n == Normal(later, false)
    requires Balanced(Print(n)) && Normal(Print(n), false) == Normal(later, true)
    ensures Balanced(Print(Normal(s, false)))
    ensures Normal(Print(Normal(s, false)), false) == Normal(s, true)
  {
    var stanza := s[..CloseIndex(s) + 1];
    Stanza(s, false);
    Stanza(s, true);
    PrintAppend(stanza, n);
    StanzaThen(s, Print(n));
  }

  /** A printed stanza in front of other text. */
  lemma StanzaThen(s: string, rest: string)
    requires s != [] && s[0] == '[' && CloseIndex(s) < |s|
    ensures var w := Print(s[..CloseIndex(s) + 1]) + rest;
            && (Balanced(w) <==> Balanced(rest))
            && Normal(w, false) == Print(s[..CloseIndex(s) + 1]) + Normal(rest, false)
  {
    var c := CloseIndex(s);
    var printed := Print(s[..c + 1]);
    var w := printed + rest;
    PrintedStanzaCloses(s, rest);
    assert w[..c + 1] == printed && w[c + 1..] == rest;
    Stanza(w, false);
  }

  lemma {:induction false} BlankPrinted(s: string)
    requires NoTrailingSpace(s) && Balanced(s) && s != [] && Narrow(s[0])
    ensures Balanced(Print(Normal(s, false)))
    ensures Normal(Print(Normal(s, false)), false) == Normal(s, true)
    decreases |s|, 0
  {
    Blank(s, false);
    Blank(s, true);
    var t := TrimSpace(s[1..]);
    PrintedNormal(t);
    NormalEnds(t);
    PrintedEnds(Normal(t, false));
    PrintAppend("\n", Normal(t, false));
    var x := Print(Normal(t, false));
    var w := " " + x;
    assert Print("\n") == " ";
    assert w == Print(Normal(s, false)) && w[1..] == x;
    TrimIsTrimLeft(x);
    assert TrimLeft(x) == x;
    Blank(w, false);
  }

  /** Printing keeps a text's ends free of whitespace. */
  lemma PrintedEnds(n: string)
    requires NoTrailingSpace(n)
    ensures NoTrailingSpace(Print(n))
    ensures n != [] && !IsSpace(n[0]) ==> !IsSpace(Print(n)[0])
  {
    if n != [] {
      PrintAt(n, 0);
      PrintAt(n, |n| - 1);
    }
  }

  /** Some bracket the scan reaches holds a newline. */
  predicate NewlineInStanza(s: string)
    decreases |s|
  {
    if s == [] then false
    else if s[0] == '[' then
      var c := CloseIndex(s);
      c < |s| && ('\n' in s[..c + 1] || NewlineInStanza(s[c + 1..]))
    else if Narrow(s[0]) then NewlineInStanza(TrimLeft(s[1..]))
    else !Wide(s[0]) && NewlineInStanza(s[1..])
  }

  lemma {:induction false} PrintIsIdentity(s: string)
    ensures Print(s) == s <==> '\n' !in s
  {
    if s != [] {
      PrintIsIdentity(s[1..]);
      assert Print(s)[1..] == Print(s[1..]);
      assert s == [s[0]] + s[1..];
    }
  }

  lemma SplitEquality<T>(a: seq<T>, x: seq<T>, b: seq<T>, y: seq<T>)
    requires |a| == |b|
    ensures a + x == b + y <==> a == b && x == y
  {
    if a + x == b + y {
      assert a == (a + x)[..|a|] && x == (a + x)[|a|..];
      assert b == (b + y)[..|b|] && y == (b + y)[|b|..];
    }
  }

  lemma {:induction false} FlatIffNoNewline(s: string)
    ensures Normal(s, true) == Normal(s, false) <==> !NewlineInStanza(s)
    decreases |s|
  {
    if s != [] {
      if s[0] == '[' {
        var c := CloseIndex(s);
        if c < |s| {
          FlatIffNoNewline(s[c + 1..]);
          PrintIsIdentity(s[..c + 1]);
          SplitEquality(Print(s[..c + 1]), Normal(s[c + 1..], true), s[..c + 1], Normal(s[c + 1..], false));
        }
      } else if Narrow(s[0]) {
        var t := TrimLeft(s[1..]);
        FlatIffNoNewline(t);
        SplitEquality("\n", Normal(t, true), "\n", Normal(t, false));
      } else if !Wide(s[0]) {
        FlatIffNoNewline(s[1..]);
        SplitEquality([s[0]], Normal(s[1..], true), [s[0]], Normal(s[1..], false));
      }
    }
  }

  /**
   * Printing normalised options and normalising them again ends, and gives the
   * same options if and only if no bracket holds a newline.
   */
  lemma PrintThenParse(text: string)
    requires Balanced(TrimSpace(text))
    ensures var opts := Normal(TrimSpace(text), false);
            && Balanced(TrimSpace(Print(opts)))
            && (Normal(TrimSpace(Print(opts)), false) == opts <==> !NewlineInStanza(TrimSpace(text)))
  {
    var v := TrimSpace(text);
    var opts := Normal(v, false);
    TrimmedEnds(text);
    NormalEnds(v);
    PrintedEnds(opts);
    TrimIsTrimLeft(Print(opts));
    assert TrimLeft(Print(opts)) == Print(opts);
    PrintedNormal(v);
    FlatIffNoNewline(v);
  }

  lemma TrimmedEnds(text: string)
    ensures var v := TrimSpace(text); NoTrailingSpace(v) && (v != [] ==> !IsSpace(v[0]))
  {
    TrimRightKeepsStart(TrimLeft(text));
  }

  lemma {:induction false} TrimRightKeepsStart(s: string)
    ensures TrimRight(s) != [] ==> TrimRight(s)[0] == s[0]
  {
    if s != [] && IsSpace(s[|s| - 1]) {
      TrimRightKeepsStart(s[..|s| - 1]);
    }
  }

  /** Options with a newline in a bracket do not survive the round trip. */
  lemma NewlineInStanzaIsLost()
    ensures var opts := Normal(TrimSpace("[a\nb]"), false);
            Balanced(TrimSpace("[a\nb]")) && Normal(TrimSpace(Print(opts)), false) != opts
  {
    var s := "[a\nb]";
    assert s[1..] == "a\nb]" && "a\nb]"[1..] == "\nb]" && "\nb]"[1..] == "b]" && "b]"[1..] == "]";
    assert CloseIndex("]") == 0 && CloseIndex("b]") == 1 && CloseIndex("\nb]") == 2;
    assert CloseIndex("a\nb]") == 3;
    assert CloseIndex(s) == 4;
    assert s[..5][2] == '\n' && s[5..] == [];
    assert TrimSpace(s) == s;
    PrintThenParse(s);
  }
}
