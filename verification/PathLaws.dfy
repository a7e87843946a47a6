/** What the shell guard's path arithmetic promises, component by component and character by
    character, in terms of the strings that go in and come out. */
module PathLaws {
  import opened Text
  import opened PosixPath

  // -------------------------------------------------------------------------
  // One component more
  // -------------------------------------------------------------------------

  lemma {:induction false} FoldComponent(stack: seq<string>, comp: string)
    requires '/' !in comp
    ensures Fold(stack, Split(comp, '/')) == Push(stack, comp)
  {
    hide Push;
    WholeSplits(comp);
    assert [comp][..0] == [];
  }

  lemma {:induction false} OneMore(a: string, comp: string)
    requires '/' !in comp
    ensures Normalized(a + "/" + comp) == Rooted(Push(Fold([], Split(a, '/')), comp))
  {
    hide Split, Fold, Push, Rooted;
    SplitConcat(a, comp, '/');
    FoldAppend([], Split(a, '/'), Split(comp, '/'));
    FoldComponent(Fold([], Split(a, '/')), comp);
  }

  /** A path of one component is that component below the root, or the root. */
  lemma {:induction false} SingleComponent(comp: string)
    requires '/' !in comp
    ensures Normalized(comp) == if comp == "" || comp == "." || comp == ".." then "/" else "/" + comp
  {
    hide Split, Fold;
    FoldComponent([], comp);
    assert [] + [comp] == [comp];
  }

  /** An empty component and "." stay where they are. */
  lemma {:induction false} StandingStill(a: string)
    ensures Normalized(a + "/") == Normalized(a)
    ensures Normalized(a + "/.") == Normalized(a)
  {
    hide Split, Fold, Rooted;
    OneMore(a, "");
    OneMore(a, ".");
    assert a + "/" + "" == a + "/" && a + "/" + "." == a + "/.";
  }

  /** A component of its own goes one step down. */
  lemma {:induction false} StepDown(a: string, comp: string)
    requires IsPlain(comp)
    ensures Normalized(a + "/" + comp) == if Normalized(a) == "/" then "/" + comp else Normalized(a) + "/" + comp
  {
    hide Split, Fold, Rooted;
    OneMore(a, comp);
    PartsAreOf(a);
    RootedMore(Fold([], Split(a, '/')), comp);
  }

  lemma {:induction false} RootedMore(parts: seq<string>, comp: string)
    requires Plain(parts)
    ensures Rooted(parts + [comp]) == if Rooted(parts) == "/" then "/" + comp else Rooted(parts) + "/" + comp
  {
    hide Join, Plain;
    JoinMore(parts, comp);
    if parts != [] {
      JoinEnds(parts);
    }
  }

  lemma {:induction false} PartsAreOf(p: string)
    ensures Plain(Fold([], Split(p, '/'))) && Normalized(p) == Rooted(Fold([], Split(p, '/')))
  {
    SplitClean(p);
    FoldIsPlain([], Split(p, '/'));
  }

  lemma {:induction false} JoinMore(parts: seq<string>, comp: string)
    ensures Join(parts + [comp], '/') == if parts == [] then comp else Join(parts, '/') + "/" + comp
  {
    if parts != [] {
      assert (parts + [comp])[1..] == parts[1..] + [comp];
      JoinMore(parts[1..], comp);
    } else {
      assert [] + [comp] == [comp];
    }
  }

  /** ".." takes back the step before it. */
  lemma {:induction false} StepBack(a: string, comp: string)
    requires IsPlain(comp)
    ensures Normalized(a + "/" + comp + "/..") == Normalized(a)
  {
    hide Split, Fold, Rooted;
    var down := a + "/" + comp;
    var stack := Fold([], Split(a, '/'));
    assert down + "/" + ".." == down + "/..";
    SplitConcat(a, comp, '/');
    FoldAppend([], Split(a, '/'), Split(comp, '/'));
    FoldComponent(stack, comp);
    OneMore(down, "..");
    assert (stack + [comp])[..|stack|] == stack;
  }

  /** ".." below a normal form takes its last component away; the root is its own parent. */
  lemma {:induction false} ParentOfNormal(parts: seq<string>)
    requires Plain(parts)
    ensures Normalized(Rooted(parts) + "/..") == Rooted(if parts == [] then [] else parts[..|parts| - 1])
  {
    hide Split, Fold, Rooted;
    FoldRooted(parts);
    OneMore(Rooted(parts), "..");
    assert Rooted(parts) + "/" + ".." == Rooted(parts) + "/..";
  }

  /** In the text itself: ".." cuts the normal form off before its last slash. */
  lemma {:induction false} StepUp(a: string, above: string, last: string)
    requires Normalized(a) == above + "/" + last && '/' !in last
    ensures Normalized(a + "/..") == if above == "" then "/" else above
  {
    hide Split, Fold, Join;
    var parts := Fold([], Split(a, '/'));
    PartsAreOf(a);
    OneMore(a, "..");
    assert a + "/" + ".." == a + "/..";
    if parts == [] {
      assert above == "";
    } else {
      LastSlash(parts, above, last);
    }
  }

  lemma {:induction false} LastSlash(parts: seq<string>, above: string, last: string)
    requires Plain(parts) && parts != [] && Rooted(parts) == above + "/" + last && '/' !in last
    ensures above == if |parts| == 1 then "" else Rooted(parts[..|parts| - 1])
  {
    hide Split, Join;
    var init := parts[..|parts| - 1];
    SplitRooted(parts);
    SplitConcat(above, last, '/');
    WholeSplits(last);
    assert Split(above, '/') + [last] == [""] + parts;
    assert (Split(above, '/') + [last])[..|parts|] == ([""] + parts)[..|parts|];
    assert Split(above, '/') == [""] + init;
    JoinSplit(above, '/');
    if init != [] {
      JoinCons("", init, '/');
    } else {
      assert [""] + init == [""];
      JoinOne("", '/');
    }
  }

  // -------------------------------------------------------------------------
  // What an operand becomes before it is resolved
  // -------------------------------------------------------------------------

  lemma {:induction false} SlashesAt(s: string, i: nat)
    requires i < |s|
    ensures |Slashes(s)| == |s| && Slashes(s)[i] == if s[i] == '\\' then '/' else s[i]
  {
    var n := |s| - 1;
    if n > 0 {
      SlashesAt(s[..n], if i < n then i else 0);
    }
  }

  lemma {:induction false} SlashesAppend(s: string, t: string)
    ensures Slashes(s + t) == Slashes(s) + Slashes(t)
  {
    if t == "" {
      assert s + t == s;
    } else {
      SlashesAppend(s, t[..|t| - 1]);
      assert (s + t)[..|s + t| - 1] == s + t[..|t| - 1];
    }
  }

  /** A tilde stands for the home directory, that of `root`, or that of the user it names. */
  lemma {:induction false} TildeExpands(rest: string, isWin: bool)
    ensures ExpandTilde("~", isWin) == "/home/user"
    ensures ExpandTilde("~/" + rest, isWin) == "/home/user/" + Slashes(rest)
    ensures ExpandTilde("~\\" + rest, isWin) == "/home/user/" + Slashes(rest)
    ensures
      rest != "" && rest[0] != '/' && rest[0] != '\\' ==>
        ExpandTilde("~" + rest, isWin)
          == if isWin then "C:\\Users\\" + rest else if rest == "root" then "/root" else "/home/" + rest
    ensures rest != "" && rest[0] != '~' ==> ExpandTilde(rest, isWin) == rest
  {
    hide Slashes;
    assert ("~/" + rest)[1..] == "/" + rest && ("~\\" + rest)[1..] == "\\" + rest && ("~" + rest)[1..] == rest;
    SlashesAppend("/", rest);
    SlashesAppend("\\", rest);
    OneSlash();
    assert HOME + ("/" + Slashes(rest)) == "/home/user/" + Slashes(rest);
  }

  lemma {:induction false} OneSlash()
    ensures Slashes("/") == "/" && Slashes("\\") == "/"
  {
    assert "/"[..0] == "" && "\\"[..0] == "";
  }

  /** `t` shows the text `s`, each character plain or in its full-width form. */
  predicate LooksLike(t: string, s: string) {
    |t| == |s| && forall i :: 0 <= i < |s| ==> t[i] == s[i] || FullWidth(t[i], s[i])
  }

  /** U+FF01 to U+FF5E are the full-width forms of "!" to "~", U+3000 that of the blank. */
  predicate FullWidth(wide: char, c: char) {
    || ('!' <= c <= '~' && wide as int == c as int + 0xFEE0)
    || (c == ' ' && wide as int == 0x3000)
  }

  /** Full-width letters read as the plain ones: nothing but ASCII is left of a text that looks so. */
  lemma {:induction false} HomoglyphsFold(t: string, s: string)
    requires LooksLike(t, s) && forall i :: 0 <= i < |s| ==> s[i] < 128 as char
    ensures NfkcFold(t) == s
  {
    if s != "" {
      var n := |s| - 1;
      assert t[n] == s[n] || FullWidth(t[n], s[n]);
      HomoglyphsFold(t[..n], s[..n]);
      assert s == s[..n] + [s[n]];
    }
  }

  /** So a look-alike of an ASCII operand that begins with no tilde resolves as the operand itself. */
  lemma {:induction false} HomoglyphsResolveAlike(t: string, s: string, cwd: string, isWin: bool)
    requires LooksLike(t, s) && forall i :: 0 <= i < |s| ==> s[i] < 128 as char
    requires s != "" && s[0] != '~'
    ensures Operand(t, cwd, isWin) == Operand(s, cwd, isWin)
  {
    hide NfkcFold, ToPosix, Lower, Resolved, Wildcard, Base, WithWildcard;
    assert t[0] != '~' by { assert t[0] == s[0] || FullWidth(t[0], s[0]); }
    HomoglyphsFold(t, s);
    HomoglyphsFold(s, s);
    TildeExpands(t, isWin);
    TildeExpands(s, isWin);
  }

  /** Other characters beyond ASCII are left as they are. */
  lemma {:induction false} OthersStay(s: string)
    requires forall i :: 0 <= i < |s| ==> s[i] as int != 0x3000 && !(0xFF01 <= s[i] as int <= 0xFF5E)
    ensures NfkcFold(s) == s
  {
    if s != "" {
      OthersStay(s[..|s| - 1]);
      assert s == s[..|s| - 1] + [s[|s| - 1]];
    }
  }

  /** A drive with a colon lies below "/mnt", whatever its case and its slashes. */
  lemma {:induction false} DriveIsMounted(p: string, drive: char, slash: char, rest: string)
    requires IsAlphabetic(drive) && (slash == '/' || slash == '\\') && Trim(p) == [drive, ':', slash] + rest
    ensures
      var lower := if 'A' <= drive <= 'Z' then (drive as int - 'A' as int + 'a' as int) as char else drive;
      ToPosix(p) == "/mnt/" + [lower] + "/" + Slashes(rest)
  {
    hide Trim, Slashes, Split, Join;
    assert Trim(p)[0] == drive && Trim(p)[3..] == rest;
  }

  /** So does "/c/...". */
  lemma {:induction false} SlashDriveIsMounted(p: string, drive: char, rest: string)
    requires IsAlphabetic(drive) && Trim(p) == ['/', drive, '/'] + rest
    ensures
      var lower := if 'A' <= drive <= 'Z' then (drive as int - 'A' as int + 'a' as int) as char else drive;
      ToPosix(p) == "/mnt/" + [lower] + "/" + rest
  {
    hide Trim, Slashes, Split, Join;
    var t := Trim(p);
    assert t[0] == '/' && t[1] == drive && t[3..] == rest;
  }

  /** The path inside a WSL distribution is an absolute one, with its slashes turned. */
  lemma {:induction false} WslIsLocal(p: string, host: string, distro: string, rest: string)
    requires host == "\\\\wsl.localhost\\" || host == "\\\\wsl$\\\\"
    requires '\\' !in distro && Trim(p) == host + (distro + "\\" + rest)
    ensures ToPosix(p) == "/" + Slashes(rest)
  {
    hide Trim, Slashes, Split, Join;
    HostIsTaken(Trim(p), host, distro + "\\" + rest);
    SplitHeadWhole(distro, rest, '\\');
    SplitPieces(rest, '\\');
    assert ([distro] + Split(rest, '\\'))[1..] == Split(rest, '\\');
    JoinSlashes(rest);
  }

  lemma {:induction false} HostIsTaken(t: string, host: string, path: string)
    requires (host == "\\\\wsl.localhost\\" || host == "\\\\wsl$\\\\") && t == host + path
    ensures WslRest(t) == Some(path)
  {
    assert t[|host|..] == path;
    assert host[5] == '.' || (host[5] == '$' && t[5] == '$');
  }

  lemma {:induction false} SplitPieces(s: string, c: char)
    ensures |Split(s, c)| >= 1
  {
  }

  lemma {:induction false} SplitHeadWhole(p: string, rest: string, c: char)
    requires c !in p
    ensures Split(p + [c] + rest, c) == [p] + Split(rest, c)
  {
    hide Lines, Tail;
    SplitHead(p, rest, c);
  }

  lemma {:induction false} JoinSlashes(s: string)
    ensures Join(Split(s, '\\'), '/') == Slashes(s)
    decreases |s|
  {
    hide Split, Join, Slashes;
    var k := Find(s, '\\');
    if k < |s| {
      var rest := s[k + 1..];
      JoinSlashes(rest);
      assert s == s[..k] + ['\\'] + rest;
      SplitHeadWhole(s[..k], rest, '\\');
      SplitPieces(rest, '\\');
      JoinCons(s[..k], Split(rest, '\\'), '/');
      SlashesAppend(s[..k] + ['\\'], rest);
      SlashesAppend(s[..k], "\\");
      OneSlash();
      SlashesFixed(s[..k]);
    } else {
      assert s[..k] == s;
      SlashesFixed(s);
      NoSplit(s, '\\');
      JoinOne(s, '/');
    }
  }

  lemma {:induction false} NoSplit(s: string, c: char)
    requires c !in s
    ensures Split(s, c) == [s]
  {
    hide Lines, Tail;
    TailClean(s, c);
  }

  /** A blank operand is the home directory; any other path without a drive or backslashes stays as
      it is, trimmed. */
  lemma {:induction false} PlainPathStays(p: string)
    ensures Trim(p) == "" ==> ToPosix(p) == "/home/user"
    ensures
      var t := Trim(p);
      && t != "" && '\\' !in t && !(|t| >= 3 && t[2] == '/' && (t[1] == ':' || (t[0] == '/' && IsAlphabetic(t[1]))))
      ==> ToPosix(p) == t
  {
    hide Trim, Slashes, Split, Join;
    var t := Trim(p);
    if t != "" && '\\' !in t {
      SlashesFixed(t);
      assert t[0] in t;
      assert WslRest(t).None?;
    }
  }

  // -------------------------------------------------------------------------
  // The wildcard
  // -------------------------------------------------------------------------

  /** Where a path leads: an absolute one from the root, any other from the working directory. */
  function Target(path: string, cwd: string): string {
    if path != "" && path[0] == '/' then Normalized(path) else Normalized(ToPosix(cwd) + "/" + path)
  }

  lemma {:induction false} SlashStar(path: string)
    requires path != ""
    ensures Wildcard(path + "/*") == "/*" && Base(path + "/*") == path
    ensures Wildcard("/*") == "/*" && Base("/*") == "/"
  {
    var posix := path + "/*";
    assert posix[|posix| - 2..] == "/*" && posix[..|posix| - 2] == path;
    assert "/*"[..0] == "" && "/*"[0..] == "/*";
  }

  lemma {:induction false} Star(path: string)
    requires path != "" && path[|path| - 1] != '/'
    ensures Wildcard(path + "*") == "*" && Base(path + "*") == path
  {
    var posix := path + "*";
    assert posix[|posix| - 2..][0] == path[|path| - 1];
    assert posix[|posix| - 1..] == "*" && posix[..|posix| - 1] == path;
  }

  lemma {:induction false} OnlyStar()
    ensures Wildcard("*") == "*" && Base("*") == "/"
  {
    assert "*"[..0] == "" && "*"[0..] == "*";
  }

  lemma {:induction false} NoStar(path: string)
    requires path != "" && path[|path| - 1] != '*'
    ensures Wildcard(path) == "" && Base(path) == path
  {
    assert |path| >= 2 ==> path[|path| - 2..][1] != '*';
    assert path[|path| - 1..][0] != '*';
    assert path[..|path|] == path;
  }

  /** A wildcard at the end is put back behind the resolved path, and the root is then left out. */
  lemma {:induction false} WildcardIsKept(operand: string, cwd: string, isWin: bool, path: string)
    requires path != ""
    ensures
      var posix := ToPosix(NfkcFold(ExpandTilde(operand, isWin)));
      var to := Target(path, cwd);
      && (posix == path + "/*" ==> Operand(operand, cwd, isWin) == Lower(if to == "/" then "/*" else to + "/*"))
      && (posix == path + "*" && path[|path| - 1] != '/' ==>
            Operand(operand, cwd, isWin) == Lower(if to == "/" then "*" else to + "*"))
      && (posix == path && path[|path| - 1] != '*' ==> Operand(operand, cwd, isWin) == Lower(to))
      && (posix == "/*" || posix == "*" ==> Operand(operand, cwd, isWin) == posix)
  {
    hide ToPosix, NfkcFold, ExpandTilde, Normalized, Lower, Wildcard, Base;
    var posix := ToPosix(NfkcFold(ExpandTilde(operand, isWin)));
    SlashStar(path);
    OnlyStar();
    if path[|path| - 1] != '/' {
      Star(path);
    }
    if path[|path| - 1] != '*' {
      NoStar(path);
    }
    assert Resolved(path, cwd) == Target(path, cwd);
    if posix == "/*" || posix == "*" {
      RootOfNothing();
      LowerFixed(posix);
    }
  }

  lemma {:induction false} RootOfNothing()
    ensures Normalized("/") == "/"
  {
    hide Split, Fold;
    RootSplits();
  }

  /** The case of ASCII letters does not count. */
  lemma {:induction false} LowerAt(s: string, i: nat)
    requires i < |s|
    ensures |Lower(s)| == |s|
    ensures Lower(s)[i] == if 'A' <= s[i] <= 'Z' then (s[i] as int - 'A' as int + 'a' as int) as char else s[i]
  {
    LowerChars(s);
  }
}
