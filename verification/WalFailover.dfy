/** The --wal-failover flag: parsing, and printing a configuration back as a flag. */
module WalFailover {
  import opened Common

  datatype Mode = Default | Disabled | AmongStores | ExplicitPath

  /** The configuration as far as the flag text determines it. */
  datatype Config = Config(mode: Mode, path: string, prevPath: string)

  const FRESH := Config(Default, "", "")

  function TrimPrefix(s: string, prefix: string): string {
    if prefix <= s then s[|prefix|..] else s
  }

  function CommaIndex(s: string): (i: nat)
    ensures i <= |s|
    ensures i < |s| ==> s[i] == ','
  {
    if s == [] || s[0] == ',' then 0 else 1 + CommaIndex(s[1..])
  }

  predicate NoComma(s: string) {
    forall i :: 0 <= i < |s| ==> s[i] != ','
  }

  lemma {:induction false} CommaIndexIsFirst(s: string)
    ensures NoComma(s[..CommaIndex(s)])
  {
    if s != [] && s[0] != ',' {
      CommaIndexIsFirst(s[1..]);
      assert s[..CommaIndex(s)] == [s[0]] + s[1..][..CommaIndex(s[1..])];
    }
  }

  lemma {:induction false} CommaIndexAfter(p: string, rest: string)
    requires NoComma(p) && (rest == [] || rest[0] == ',')
    ensures CommaIndex(p + rest) == |p|
  {
    if p == [] {
      assert p + rest == rest;
    } else {
      assert (p + rest)[1..] == p[1..] + rest;
      CommaIndexAfter(p[1..], rest);
    }
  }

  /** path, prevPath; None when the text is malformed. */
  function ParseFields(s: string): Option<(string, string)> {
    if s == "" then Some(("", ""))
    else if "path=" <= s then
      var t := s[5..];
      var i := CommaIndex(t);
      if i == |t| then Some((t, "")) else ParsePrev(t[..i], t[i..])
    else ParsePrev("", s)
  }

  function ParsePrev(path: string, s: string): Option<(string, string)> {
    if ",prev_path=" <= s then Some((path, s[11..])) else None
  }

  class WALFailoverConfig {
    var mode: Mode
    var path: string
    var prevPath: string

    constructor ()
      ensures View() == FRESH
    {
      mode, path, prevPath := Default, "", "";
    }

    function View(): Config
      reads this
    {
      Config(mode, path, prevPath)
    }

    /** Fields are set before the text is rejected, as in the source. */
    method Set(s: string) returns (ok: bool)
      modifies this
      ensures (View(), ok) == AfterSet(old(View()), s)
    {
      if "disabled" <= s {
        mode := Disabled;
        var f := ParseFields(TrimPrefix(s, "disabled"));
        path, prevPath := if f.Some? then f.value.0 else "", if f.Some? then f.value.1 else "";
        return f.Some? && path == "";
      }
      if s == "among-stores" {
        mode := AmongStores;
        return true;
      }
      if "path=" <= s {
        mode := ExplicitPath;
        var f := ParseFields(s);
        path, prevPath := if f.Some? then f.value.0 else "", if f.Some? then f.value.1 else "";
        return f.Some? && path != "";
      }
      return false;
    }
  }

  function AfterSet(c: Config, s: string): (Config, bool) {
    if "disabled" <= s then
      var f := ParseFields(TrimPrefix(s, "disabled"));
      if f.None? then (Config(Disabled, "", ""), false)
      else (Config(Disabled, f.value.0, f.value.1), f.value.0 == "")
    else if s == "among-stores" then (c.(mode := AmongStores), true)
    else if "path=" <= s then
      var f := ParseFields(s);
      if f.None? then (Config(ExplicitPath, "", ""), false)
      else (Config(ExplicitPath, f.value.0, f.value.1), f.value.0 != "")
    else (c, false)
  }

  function PrevField(prevPath: string): string {
    if prevPath == "" then "" else ",prev_path=" + prevPath
  }

  /** SafeFormat */
  function Format(c: Config): string {
    match c.mode
    case Default => ""
    case Disabled => "disabled" + PrevField(c.prevPath)
    case AmongStores => "among-stores"
    case ExplicitPath => "path=" + c.path + PrevField(c.prevPath)
  }

  lemma ParsePrevField(path: string, prevPath: string)
    requires prevPath != ""
    ensures ParsePrev(path, PrevField(prevPath)) == Some((path, prevPath))
    ensures PrevField(prevPath) != "" && PrevField(prevPath)[0] == ',' && !("path=" <= PrevField(prevPath))
  {
    var s := PrevField(prevPath);
    assert s[11..] == prevPath;
    assert s[0] == ',' && "path="[0] == 'p';
  }

  lemma PrintedPathParses(path: string, prevPath: string)
    requires NoComma(path)
    ensures ParseFields("path=" + path + PrevField(prevPath)) == Some((path, prevPath))
  {
    var s := "path=" + path + PrevField(prevPath);
    var t := path + PrevField(prevPath);
    assert s == "path=" + t;
    assert s[5..] == t;
    if prevPath == "" {
      CommaIndexAfter(path, "");
      assert path + "" == path;
    } else {
      ParsePrevField(path, prevPath);
      CommaIndexAfter(path, PrevField(prevPath));
      assert t[..|path|] == path && t[|path|..] == PrevField(prevPath);
    }
  }

  /** What an accepted text leaves in a configuration: among-stores keeps the paths set before. */
  lemma AcceptedIsProper(before: Config, s: string)
    requires AfterSet(before, s).1
    ensures var c := AfterSet(before, s).0;
            match c.mode
            case Default => false
            case Disabled => c.path == ""
            case AmongStores => c.path == before.path && c.prevPath == before.prevPath
            case ExplicitPath => c.path != "" && NoComma(c.path)
  {
    if !("disabled" <= s) && s != "among-stores" && "path=" <= s {
      CommaIndexIsFirst(s[5..]);
      assert s[5..][..|s[5..]|] == s[5..];
    }
  }

  /**
   * An accepted text leaves a configuration that prints to a text which a fresh
   * configuration parses to the same, if and only if the text is not
   * "among-stores" or no path was set before; so always on a fresh configuration.
   */
  lemma PrintThenParse(before: Config, s: string)
    requires AfterSet(before, s).1
    ensures var c := AfterSet(before, s).0;
            AfterSet(FRESH, Format(c)) == (c, true) <==>
            s != "among-stores" || (before.path == "" && before.prevPath == "")
  {
    AcceptedIsProper(before, s);
    var c := AfterSet(before, s).0;
    var text := Format(c);
    match c.mode
    case Disabled =>
      var rest := PrevField(c.prevPath);
      assert text == "disabled" + rest && text[8..] == rest;
      if c.prevPath != "" {
        ParsePrevField("", c.prevPath);
      }
    case AmongStores =>
      assert text[0] == 'a' && "disabled"[0] == 'd';
    case ExplicitPath =>
      PrintedPathParses(c.path, c.prevPath);
      assert text[0] == 'p' && "disabled"[0] == 'd' && "among-stores"[0] == 'a';
      assert text[..5] == "path=";
  }

  /** On a configuration that was set before, a stale path survives and is not printed. */
  lemma SetTwiceKeepsStalePath(path: string)
    requires path != "" && NoComma(path)
    ensures var first := AfterSet(FRESH, "path=" + path).0;
            var second := AfterSet(first, "among-stores").0;
            second == Config(AmongStores, path, "") && AfterSet(FRESH, Format(second)).0 != second
  {
    PrintedPathParses(path, "");
    var s := "path=" + path;
    assert s + "" == s;
    assert s[0] == 'p' && "disabled"[0] == 'd' && "among-stores"[0] == 'a';
    assert s[..5] == "path=";
  }

  /** The text alone, or followed by a previous path. */
  predicate WithPrev(s: string, base: string, prev: string) {
    s == base || s == base + ",prev_path=" + prev
  }

  ghost predicate DisabledText(s: string) {
    exists prev :: WithPrev(s, "disabled", prev) || WithPrev(s, "disabledpath=", prev)
  }

  ghost predicate PathText(s: string) {
    exists p, prev :: p != "" && NoComma(p) && WithPrev(s, "path=" + p, prev)
  }

  /**
   * The texts that are accepted: "among-stores", a path without a comma, or
   * "disabled", the latter two with or without a previous path; and also an empty
   * path right after "disabled".
   */
  lemma AcceptedIff(before: Config, s: string)
    ensures AfterSet(before, s).1 <==> s == "among-stores" || DisabledText(s) || PathText(s)
  {
    if AfterSet(before, s).1 {
      if "disabled" <= s {
        AcceptedDisabled(s);
      } else if s != "among-stores" {
        AcceptedPath(s);
      }
    }
    if DisabledText(s) {
      DisabledIsAccepted(s);
    }
    if PathText(s) {
      PathIsAccepted(s);
    }
    assert "among-stores"[0] == 'a' && "disabled"[0] == 'd';
  }

  lemma Glue(a: string, b: string)
    ensures a <= a + b && (a + b)[|a|..] == b && (a + b)[..|a|] == a
  {
  }

  lemma AcceptedDisabled(s: string)
    requires "disabled" <= s && ParseFields(s[8..]).Some? && ParseFields(s[8..]).value.0 == ""
    ensures DisabledText(s)
  {
    var t := s[8..];
    assert s == "disabled" + t;
    if t == "" {
      assert WithPrev(s, "disabled", "");
    } else if "path=" <= t {
      var u := t[5..];
      assert t == "path=" + u && s == "disabledpath=" + u;
      var i := CommaIndex(u);
      if i == |u| {
        assert WithPrev(s, "disabledpath=", "");
      } else {
        assert u[..i] == "" && u[i..] == u;
        assert u == ",prev_path=" + u[11..];
        assert WithPrev(s, "disabledpath=", u[11..]);
      }
    } else {
      assert t == ",prev_path=" + t[11..];
      assert WithPrev(s, "disabled", t[11..]);
    }
  }

  lemma AcceptedPath(s: string)
    requires "path=" <= s && ParseFields(s).Some? && ParseFields(s).value.0 != ""
    ensures PathText(s)
  {
    var t := s[5..];
    assert s == "path=" + t;
    var i := CommaIndex(t);
    CommaIndexIsFirst(t);
    if i == |t| {
      assert t[..i] == t;
      assert WithPrev(s, "path=" + t, "");
    } else {
      var p, u := t[..i], t[i..];
      assert u == ",prev_path=" + u[11..];
      assert s == "path=" + p + ",prev_path=" + u[11..];
      assert WithPrev(s, "path=" + p, u[11..]);
    }
  }

  lemma PrevParses(prev: string)
    ensures ParseFields(",prev_path=" + prev) == Some(("", prev))
  {
    var tail := ",prev_path=" + prev;
    Glue(",prev_path=", prev);
    assert tail[0] == ',' && "path="[0] == 'p';
  }

  lemma EmptyPathParses(prev: string)
    ensures ParseFields("path=" + (",prev_path=" + prev)) == Some(("", prev))
    ensures ParseFields("path=") == Some(("", ""))
  {
    var tail := ",prev_path=" + prev;
    Glue("path=", tail);
    Glue(",prev_path=", prev);
    assert CommaIndex(tail) == 0 && tail[..0] == "" && tail[0..] == tail;
    assert "path="[5..] == "";
  }

  lemma Regroup<T>(a: seq<T>, b: seq<T>, c: seq<T>, d: seq<T>)
    ensures (a + b) + c + d == a + (b + (c + d)) && a + c + d == a + (c + d)
  {
  }

  /** What may follow "disabled". */
  lemma DisabledTail(s: string, prev: string) returns (t: string)
    requires WithPrev(s, "disabled", prev) || WithPrev(s, "disabledpath=", prev)
    ensures s == "disabled" + t
    ensures t == "" || t == ",prev_path=" + prev || t == "path=" || t == "path=" + (",prev_path=" + prev)
  {
    assert "disabledpath=" == "disabled" + "path=";
    Regroup("disabled", "path=", ",prev_path=", prev);
    if s == "disabled" {
      t := "";
    } else if s == "disabledpath=" {
      t := "path=";
    } else if s == "disabled" + ",prev_path=" + prev {
      t := ",prev_path=" + prev;
    } else {
      t := "path=" + (",prev_path=" + prev);
    }
  }

  lemma DisabledIsAccepted(s: string)
    requires DisabledText(s)
    ensures "disabled" <= s && ParseFields(s[8..]).Some? && ParseFields(s[8..]).value.0 == ""
  {
    var prev :| WithPrev(s, "disabled", prev) || WithPrev(s, "disabledpath=", prev);
    var t := DisabledTail(s, prev);
    PrevParses(prev);
    EmptyPathParses(prev);
    Glue("disabled", t);
  }

  lemma PathIsAccepted(s: string)
    requires PathText(s)
    ensures "path=" <= s && !("disabled" <= s) && s != "among-stores"
    ensures ParseFields(s).Some? && ParseFields(s).value.0 != ""
  {
    var p, prev :| p != "" && NoComma(p) && WithPrev(s, "path=" + p, prev);
    if s == "path=" + p {
      PrintedPathParses(p, "");
      assert s + "" == s;
    } else {
      var tail := ",prev_path=" + prev;
      var t := p + tail;
      assert s == "path=" + t;
      Glue("path=", t);
      Glue(",prev_path=", prev);
      Glue(p, tail);
      CommaIndexAfter(p, tail);
    }
    assert s[0] == 'p' && "disabled"[0] == 'd' && "among-stores"[0] == 'a';
    assert s[..5] == "path=";
  }
}
