/** The path folding behind the shell guard of `src/tools/shell.rs`. */
module PosixPath {
  import opened Text

  // -------------------------------------------------------------------------
  // Folding the components of a path
  // -------------------------------------------------------------------------

  function Push(stack: seq<string>, comp: string): seq<string> {
    if comp == "" || comp == "." then stack
    else if comp == ".." then if stack == [] then [] else stack[..|stack| - 1]
    else stack + [comp]
  }

  function Fold(stack: seq<string>, comps: seq<string>): seq<string> {
    if comps == [] then stack else Push(Fold(stack, comps[..|comps| - 1]), comps[|comps| - 1])
  }

  function Rooted(parts: seq<string>): string {
    if parts == [] then "/" else "/" + Join(parts, '/')
  }

  /** What `posix_normalize` computes. */
  function Normalized(p: string): string {
    Rooted(Fold([], Split(p, '/')))
  }

  lemma {:induction false} FoldStep(comps: seq<string>, i: nat)
    requires i < |comps|
    ensures Fold([], comps[..i + 1]) == Push(Fold([], comps[..i]), comps[i])
  {
    hide Push;
    assert comps[..i + 1][..i] == comps[..i];
  }

  /** `posix_normalize`. */
  method PosixNormalize(p: string) returns (r: string)
    ensures r == Normalized(p)
  {
    hide Split, Join, Fold;
    var parts: seq<string> := [];
    var comps := Split(p, '/');
    FoldNothing(comps);
    for i := 0 to |comps|
      invariant parts == Fold([], comps[..i])
    {
      FoldStep(comps, i);
      var comp := comps[i];
      if comp == "" || comp == "." {
        continue;
      }
      if comp == ".." {
        if parts != [] {
          parts := parts[..|parts| - 1];
        }
      } else {
        parts := parts + [comp];
      }
    }
    assert comps[..|comps|] == comps;
    if parts == [] {
      return "/";
    }
    return "/" + Join(parts, '/');
  }

  lemma {:induction false} FoldNothing(comps: seq<string>)
    ensures Fold([], comps[..0]) == []
  {
  }

  /** A component that stands for itself. */
  predicate IsPlain(comp: string) {
    comp != "" && comp != "." && comp != ".." && '/' !in comp
  }

  predicate Plain(parts: seq<string>) {
    forall i :: 0 <= i < |parts| ==> IsPlain(parts[i])
  }

  lemma {:induction false} FoldIsPlain(stack: seq<string>, comps: seq<string>)
    requires Plain(stack) && forall i :: 0 <= i < |comps| ==> '/' !in comps[i]
    ensures Plain(Fold(stack, comps))
  {
    if comps != [] {
      FoldIsPlain(stack, comps[..|comps| - 1]);
    }
  }

  lemma {:induction false} FoldAppend(stack: seq<string>, a: seq<string>, b: seq<string>)
    ensures Fold(stack, a + b) == Fold(Fold(stack, a), b)
  {
    if b == [] {
      assert a + b == a;
    } else {
      hide Push;
      FoldAppend(stack, a, b[..|b| - 1]);
      assert (a + b)[..|a + b| - 1] == a + b[..|b| - 1];
    }
  }

  /** Plain components pile up. */
  lemma {:induction false} FoldPlain(stack: seq<string>, parts: seq<string>)
    requires Plain(parts)
    ensures Fold(stack, parts) == stack + parts
  {
    if parts != [] {
      var n := |parts| - 1;
      FoldPlain(stack, parts[..n]);
      assert stack + parts[..n] + [parts[n]] == stack + parts;
    } else {
      assert stack + parts == stack;
    }
  }

  lemma {:induction false} SplitClean(p: string)
    ensures forall i :: 0 <= i < |Split(p, '/')| ==> '/' !in Split(p, '/')[i]
  {
    hide Lines, Tail;
    TailClean(p, '/');
  }

  /** The components of a rooted path fold back to its parts. */
  lemma {:induction false} FoldRooted(parts: seq<string>)
    requires Plain(parts)
    ensures Fold([], Split(Rooted(parts), '/')) == parts
  {
    hide Split, Join;
    if parts == [] {
      RootSplits();
    } else {
      SplitJoin(parts, '/');
      SplitConcat("", Join(parts, '/'), '/');
      EmptySplits();
      assert "" + ['/'] + Join(parts, '/') == Rooted(parts);
      FoldAppend([], [""], parts);
      FoldPlain([], parts);
      assert Fold([], [""]) == [] by { FoldEmptyComponent(); }
      assert [] + parts == parts;
    }
  }

  lemma {:induction false} FoldEmptyComponent()
    ensures Fold([], [""]) == [] && Fold([], ["", ""]) == []
  {
    assert [""][..0] == [] && ["", ""][..1] == [""];
  }

  lemma {:induction false} EmptySplits()
    ensures Split("", '/') == [""]
  {
  }

  lemma {:induction false} RootSplits()
    ensures Fold([], Split("/", '/')) == []
  {
    hide Split;
    SplitConcat("", "", '/');
    EmptySplits();
    assert "" + ['/'] + "" == "/" && [""] + [""] == ["", ""];
    FoldEmptyComponent();
  }

  // -------------------------------------------------------------------------
  // The laws
  // -------------------------------------------------------------------------

  /** A normalised path is the root, or plain components each behind one slash; it never ends in a
      slash unless it is the root. */
  lemma {:induction false} NormalizedShape(p: string)
    ensures
      exists parts :: Plain(parts) && Normalized(p) == Rooted(parts) && Fold([], Split(Normalized(p), '/')) == parts
    ensures Normalized(p) != "/" ==> Normalized(p)[|Normalized(p)| - 1] != '/'
  {
    hide Split, Join;
    SplitClean(p);
    var parts := Fold([], Split(p, '/'));
    FoldIsPlain([], Split(p, '/'));
    FoldRooted(parts);
    if parts != [] {
      JoinEnds(parts);
    }
  }

  lemma {:induction false} JoinEnds(parts: seq<string>)
    requires Plain(parts) && parts != []
    ensures Join(parts, '/') != "" && Join(parts, '/')[|Join(parts, '/')| - 1] != '/'
  {
    if |parts| > 1 {
      JoinEnds(parts[1..]);
    } else {
      assert parts[0][|parts[0]| - 1] in parts[0];
    }
  }

  /** Normalising twice is normalising once. */
  lemma {:induction false} NormalizeIdempotent(p: string)
    ensures Normalized(Normalized(p)) == Normalized(p)
  {
    hide Split, Join, Fold;
    SplitClean(p);
    FoldIsPlain([], Split(p, '/'));
    FoldRooted(Fold([], Split(p, '/')));
  }

  /** A path resolves the same against a directory and against the directory's normal form. */
  lemma {:induction false} NormalizeComposes(a: string, b: string)
    ensures Normalized(a + "/" + b) == Normalized(Normalized(a) + "/" + b)
  {
    hide Split, Join, Fold;
    var stack := Fold([], Split(a, '/'));
    SplitConcat(a, b, '/');
    SplitConcat(Normalized(a), b, '/');
    FoldAppend([], Split(a, '/'), Split(b, '/'));
    FoldAppend([], Split(Normalized(a), '/'), Split(b, '/'));
    SplitClean(a);
    FoldIsPlain([], Split(a, '/'));
    FoldRooted(stack);
  }

  // -------------------------------------------------------------------------
  // Operands of shell commands
  // -------------------------------------------------------------------------

  const HOME := "/home/user"

  predicate IsUpper(c: char) {
    'A' <= c <= 'Z'
  }

  predicate IsAlphabetic(c: char) {
    'a' <= c <= 'z' || IsUpper(c)
  }

  function LowerChar(c: char): char {
    if IsUpper(c) then (c as int + 32) as char else c
  }

  /** `to_ascii_lowercase`. */
  function Lower(s: string): string {
    if s == "" then "" else Lower(s[..|s| - 1]) + [LowerChar(s[|s| - 1])]
  }

  /** `replace('\\', "/")`. */
  function Slashes(s: string): string {
    if s == "" then "" else Slashes(s[..|s| - 1]) + [if s[|s| - 1] == '\\' then '/' else s[|s| - 1]]
  }

  function ExpandTilde(operand: string, isWin: bool): string {
    if operand == "~" then HOME
    else if "~/" <= operand || "~\\" <= operand then HOME + Slashes(operand[1..])
    else if "~" <= operand then
      var rest := operand[1..];
      if isWin then "C:\\Users\\" + rest else if rest == "root" then "/root" else "/home/" + rest
    else operand
  }

  function FoldChar(c: char): char {
    if 0xFF01 <= c as int <= 0xFF5E then (c as int - 0xFF01 + 0x21) as char
    else if c as int == 0x3000 then ' '
    else c
  }

  function NfkcFold(s: string): string {
    if s == "" then "" else NfkcFold(s[..|s| - 1]) + [FoldChar(s[|s| - 1])]
  }

  /** The part of a WSL path behind the host name. */
  function WslRest(t: string): Option<string> {
    var local := StripPrefix(t, "\\\\wsl.localhost\\");
    if local.Some? then local else StripPrefix(t, "\\\\wsl$\\\\")
  }

  /** `C:\...` or `C:/...`. */
  predicate IsDrive(t: string) {
    |t| >= 3 && IsAlphabetic(t[0]) && t[1] == ':' && (t[2] == '\\' || t[2] == '/')
  }

  /** `/c/...`. */
  predicate IsSlashDrive(t: string) {
    |t| >= 3 && t[0] == '/' && IsAlphabetic(t[1]) && t[2] == '/'
  }

  function ToPosix(p: string): string {
    var t := Trim(p);
    if t == "" then HOME
    else if WslRest(t).Some? && |Split(WslRest(t).value, '\\')| >= 2 then
      "/" + Join(Split(WslRest(t).value, '\\')[1..], '/')
    else if IsDrive(t) then "/mnt/" + [LowerChar(t[0])] + "/" + Slashes(t[3..])
    else if IsSlashDrive(t) then "/mnt/" + [LowerChar(t[1])] + "/" + t[3..]
    else Slashes(t)
  }

  /** A trailing wildcard, taken off before the path is resolved and put back after. */
  function Wildcard(posix: string): string {
    if EndsWith(posix, "/*") then "/*" else if EndsWith(posix, "*") then "*" else ""
  }

  function Base(posix: string): (base: string)
    ensures base != ""
  {
    var base := posix[..|posix| - |Wildcard(posix)|];
    if base == "" then "/" else base
  }

  function Resolved(base: string, cwd: string): string {
    if "/" <= base then Normalized(base) else Normalized(ToPosix(cwd) + "/" + base)
  }

  function WithWildcard(path: string, wildcard: string): string {
    if wildcard == "" then path else if path == "/" then wildcard else path + wildcard
  }

  /** What `normalize_operand` computes. */
  function Operand(operand: string, cwd: string, isWin: bool): string {
    var posix := ToPosix(NfkcFold(ExpandTilde(operand, isWin)));
    Lower(WithWildcard(Resolved(Base(posix), cwd), Wildcard(posix)))
  }

  method TakeWildcard(posix0: string) returns (posix: string, wildcard: string)
    ensures wildcard == Wildcard(posix0) && posix == Base(posix0)
  {
    posix, wildcard := posix0, "";
    if EndsWith(posix, "/*") {
      wildcard := "/*";
      posix := posix[..|posix| - 2];
    } else if EndsWith(posix, "*") {
      wildcard := "*";
      posix := posix[..|posix| - 1];
    }
    if posix == "" {
      posix := "/";
    }
  }

  /** `normalize_operand`. */
  method NormalizeOperand(operand: string, cwd: string, isWin: bool) returns (r: string)
    ensures r == Operand(operand, cwd, isWin)
  {
    hide ExpandTilde, NfkcFold, ToPosix, Normalized, Lower, Wildcard, Base;
    var base, wildcard := TakeWildcard(ToPosix(NfkcFold(ExpandTilde(operand, isWin))));
    var posix;
    if !("/" <= base) {
      posix := PosixNormalize(ToPosix(cwd) + "/" + base);
    } else {
      posix := PosixNormalize(base);
    }
    ghost var resolved := posix;
    if posix != "/" && EndsWith(posix, "/") {
      while EndsWith(posix, "/")
        decreases |posix|
      {
        posix := posix[..|posix| - 1];
      }
    }
    // The loop above has nothing to do: no normal form but the root ends in a slash.
    NormalizedShape(if "/" <= base then base else ToPosix(cwd) + "/" + base);
    assert posix == resolved;
    if wildcard != "" {
      posix := if posix == "/" then wildcard else posix + wildcard;
    }
    r := Lower(posix);
  }

  lemma {:induction false} SlashesFixed(s: string)
    ensures Slashes(s) == s <==> '\\' !in s
    ensures |Slashes(s)| == |s|
  {
    if s != "" {
      SlashesFixed(s[..|s| - 1]);
      assert s == s[..|s| - 1] + [s[|s| - 1]];
    }
  }

  /** A normal form survives `to_posix` exactly when it has no blank at its end, no backslash, and does
      not read as a drive. */
  lemma {:induction false} ToPosixKeepsExactly(p: string)
    ensures
      var n := Normalized(p);
      ToPosix(n) == n <==> Trim(n) == n && '\\' !in n && !IsSlashDrive(n)
  {
    hide Normalized, Trim, Split, Join;
    var n := Normalized(p);
    StartsRooted(p);
    TrimRooted(n);
    SlashesFixed(Trim(n));
    if IsSlashDrive(Trim(n)) {
      assert ToPosix(n)[2] == 'n' && n[2] == '/';
    }
  }

  lemma {:induction false} StartsRooted(p: string)
    ensures Normalized(p) != "" && Normalized(p)[0] == '/'
  {
  }

  lemma {:induction false} TrimRooted(n: string)
    requires n != "" && n[0] == '/'
    ensures Trim(n) != "" && Trim(n) <= n
  {
    TrimEndKeeps(n);
  }

  /** A relative operand resolves the same against the raw working directory and against its normal
      form, if that form survives `to_posix`; an absolute one always does. */
  lemma {:induction false} OperandAgainstNormalCwd(operand: string, cwd: string, isWin: bool)
    ensures
      var n := Normalized(ToPosix(cwd));
      ToPosix(n) == n ==> Operand(operand, n, isWin) == Operand(operand, cwd, isWin)
  {
    hide ExpandTilde, NfkcFold, ToPosix, Normalized, Lower, Wildcard;
    var base := Base(ToPosix(NfkcFold(ExpandTilde(operand, isWin))));
    NormalizeComposes(ToPosix(cwd), base);
  }

  // -------------------------------------------------------------------------
  // When raw and normal working directory differ
  // -------------------------------------------------------------------------

  /** The length of a path of these components, each with its slash. */
  function Weight(comps: seq<string>): nat {
    if comps == [] then 0 else Weight(comps[..|comps| - 1]) + |comps[|comps| - 1]| + 1
  }

  lemma {:induction false} WeightAppend(a: seq<string>, b: seq<string>)
    ensures Weight(a + b) == Weight(a) + Weight(b)
  {
    if b == [] {
      assert a + b == a;
    } else {
      WeightAppend(a, b[..|b| - 1]);
      assert (a + b)[..|a + b| - 1] == a + b[..|b| - 1];
    }
  }

  lemma {:induction false} WeightOne(comp: string)
    ensures Weight([comp]) == |comp| + 1
  {
    assert [comp][..0] == [];
  }

  lemma {:induction false} JoinWeight(parts: seq<string>)
    requires parts != []
    ensures |Join(parts, '/')| + 1 == Weight(parts)
  {
    WeightOne(parts[0]);
    if |parts| > 1 {
      hide Weight;
      JoinWeight(parts[1..]);
      assert parts == [parts[0]] + parts[1..];
      WeightAppend([parts[0]], parts[1..]);
    } else {
      assert parts == [parts[0]];
    }
  }

  lemma {:induction false} SplitWeight(p: string)
    ensures Weight(Split(p, '/')) == |p| + 1
  {
    hide Weight, Join, Lines, Tail;
    JoinSplit(p, '/');
    JoinWeight(Split(p, '/'));
  }

  lemma {:induction false} FoldWeight(stack: seq<string>, comps: seq<string>)
    ensures Weight(Fold(stack, comps)) <= Weight(stack) + Weight(comps)
  {
    if comps != [] {
      var n := |comps| - 1;
      FoldWeight(stack, comps[..n]);
      PushWeight(Fold(stack, comps[..n]), comps[n]);
    }
  }

  lemma {:induction false} PushWeight(stack: seq<string>, comp: string)
    ensures Weight(Push(stack, comp)) <= Weight(stack) + |comp| + 1
  {
    if comp != "" && comp != "." && comp != ".." {
      WeightAppend(stack, [comp]);
      WeightOne(comp);
    }
  }

  /** Normalising a rooted path does not make it longer. */
  lemma {:induction false} NormalizeShortens(p: string)
    requires p != "" && p[0] == '/'
    ensures |Normalized(p)| <= |p|
  {
    hide Split, Weight, Fold, Join;
    var rest := p[1..];
    assert p == "" + ['/'] + rest;
    SplitConcat("", rest, '/');
    EmptySplits();
    FoldAppend([], [""], Split(rest, '/'));
    FoldEmptyComponent();
    FoldWeight([], Split(rest, '/'));
    SplitWeight(rest);
    NoWeight();
    var parts := Fold([], Split(p, '/'));
    if parts != [] {
      JoinWeight(parts);
    }
  }

  lemma {:induction false} NoWeight()
    ensures Weight([]) == 0
  {
  }

  predicate Free(parts: seq<string>, c: char) {
    forall i :: 0 <= i < |parts| ==> c !in parts[i]
  }

  lemma {:induction false} FoldFree(stack: seq<string>, comps: seq<string>, c: char)
    requires Free(stack, c) && Free(comps, c)
    ensures Free(Fold(stack, comps), c)
  {
    if comps != [] {
      FoldFree(stack, comps[..|comps| - 1], c);
    }
  }

  lemma {:induction false} SplitFree(p: string, c: char)
    requires c !in p
    ensures Free(Split(p, '/'), c)
    decreases |p|
  {
    var k := Find(p, '/');
    if k < |p| {
      SplitFree(p[k + 1..], c);
      assert Split(p, '/') == [p[..k]] + Split(p[k + 1..], '/');
    }
  }

  lemma {:induction false} JoinFree(parts: seq<string>, c: char)
    requires Free(parts, c) && c != '/'
    ensures c !in Join(parts, '/')
  {
    if |parts| > 1 {
      JoinFree(parts[1..], c);
    }
  }

  /** Normalising brings in no character but slashes. */
  lemma {:induction false} NormalizeFree(p: string, c: char)
    requires c !in p && c != '/'
    ensures c !in Normalized(p)
  {
    hide Split, Fold, Join;
    SplitFree(p, c);
    FoldFree([], Split(p, '/'), c);
    JoinFree(Fold([], Split(p, '/')), c);
  }

  lemma {:induction false} SlashesFree(s: string)
    ensures '\\' !in Slashes(s)
    ensures s != "" ==> Slashes(s) != "" && Slashes(s)[0] == if s[0] == '\\' then '/' else s[0]
  {
    if s != "" {
      SlashesFree(s[..|s| - 1]);
    }
  }

  lemma {:induction false} LowerChars(s: string)
    ensures |Lower(s)| == |s| && forall i :: 0 <= i < |s| ==> Lower(s)[i] == LowerChar(s[i])
  {
    if s != "" {
      LowerChars(s[..|s| - 1]);
    }
  }

  /** The pieces of a beginning of a text are pieces of the text, but for the last. */
  lemma {:induction false} LinesPrefix(p: string, s: string, c: char)
    requires p <= s
    ensures Lines(p, c) <= Lines(s, c)
  {
    assert s == p + s[|p|..];
    LinesAppend(p, s[|p|..], c);
  }

  /** The first part survives one last component, whatever that is. */
  lemma {:induction false} FoldKeepsFirst(a: string, b: string, comps: seq<string>, last: string)
    requires Plain(comps)
    ensures
      var parts := Fold([a, b], comps + [last]);
      parts != [] && parts[0] == a
  {
    FoldAppend([a, b], comps, [last]);
    FoldPlain([a, b], comps);
    assert [last][..0] == [];
    assert Fold([a, b] + comps, [last]) == Push([a, b] + comps, last);
  }

  /** Reading a normal form as a drive moves it below "/mnt", where it was not. */
  lemma {:induction false} DriveMoves(n: string, t: string, parts: seq<string>)
    requires Plain(parts) && parts != [] && n == Rooted(parts) && t <= n && IsSlashDrive(t)
    ensures
      var m := Normalized("/mnt/" + [LowerChar(t[1])] + "/" + t[3..]);
      |m| >= 3 && m[2] == 'n'
  {
    hide Split, Lines, Tail, Join, Fold, Normalized, Rooted;
    var rest, drive := t[3..], [LowerChar(t[1])];
    RestIsPlain(n, t, parts);
    var comps, last := Lines(rest, '/'), Tail(rest, '/');
    assert Split(rest, '/') == comps + [last] by { SplitIs(rest); }
    MountSplits(drive, rest);
    FoldKeepsFirst("mnt", drive, comps, last);
    MountStays(drive, comps + [last]);
    FirstShows(Fold([], ["", "mnt", drive] + (comps + [last])));
    NormalizedIs("/mnt/" + drive + "/" + rest);
  }

  lemma {:induction false} SplitIs(p: string)
    ensures Split(p, '/') == Lines(p, '/') + [Tail(p, '/')]
  {
  }

  lemma {:induction false} NormalizedIs(p: string)
    ensures Normalized(p) == Rooted(Fold([], Split(p, '/')))
  {
  }

  lemma {:induction false} SplitRooted(parts: seq<string>)
    requires Plain(parts) && parts != []
    ensures Split(Rooted(parts), '/') == [""] + parts
  {
    hide Split, Join;
    SplitJoin(parts, '/');
    assert Rooted(parts) == "" + ['/'] + Join(parts, '/');
    SplitConcat("", Join(parts, '/'), '/');
    EmptySplits();
  }

  lemma {:induction false} RestIsPlain(n: string, t: string, parts: seq<string>)
    requires Plain(parts) && parts != [] && n == Rooted(parts) && t <= n && IsSlashDrive(t)
    ensures Plain(Lines(t[3..], '/'))
  {
    hide Lines, Tail, Join, IsPlain, Rooted;
    var rest := t[3..];
    SplitRooted(parts);
    LinesPrefix(t, n, '/');
    assert Lines(n, '/') + [Tail(n, '/')] == [""] + parts;
    assert '/' !in [t[1]] && t == "" + ['/'] + ([t[1]] + ['/'] + rest);
    SplitHead("", [t[1]] + ['/'] + rest, '/');
    SplitHead([t[1]], rest, '/');
    assert Lines(t, '/') == [""] + ([[t[1]]] + Lines(rest, '/'));
    forall i | 0 <= i < |Lines(rest, '/')|
      ensures IsPlain(Lines(rest, '/')[i])
    {
      assert Lines(rest, '/')[i] == Lines(t, '/')[i + 2] == Lines(n, '/')[i + 2];
      assert ([""] + parts)[i + 2] == (Lines(n, '/') + [Tail(n, '/')])[i + 2];
    }
  }

  lemma {:induction false} MountSplits(drive: string, rest: string)
    requires '/' !in drive
    ensures Split("/mnt/" + drive + "/" + rest, '/') == ["", "mnt", drive] + Split(rest, '/')
  {
    hide Split;
    SplitConcat("/mnt/" + drive, rest, '/');
    SplitConcat("/mnt", drive, '/');
    SplitConcat("", "mnt", '/');
    EmptySplits();
    WholeSplits("mnt");
    WholeSplits(drive);
    assert "/mnt" == "" + ['/'] + "mnt" && "/mnt/" + drive == "/mnt" + ['/'] + drive;
    assert "/mnt/" + drive + "/" + rest == "/mnt/" + drive + ['/'] + rest;
  }

  lemma {:induction false} WholeSplits(comp: string)
    requires '/' !in comp
    ensures Split(comp, '/') == [comp]
  {
    TailClean(comp, '/');
  }

  lemma {:induction false} MountStays(drive: string, comps: seq<string>)
    requires |drive| == 1 && IsAlphabetic(drive[0])
    ensures Fold([], ["", "mnt", drive] + comps) == Fold(["mnt", drive], comps)
  {
    FoldAppend([], ["", "mnt", drive], comps);
    FoldAppend([], [""], ["mnt", drive]);
    assert [""] + ["mnt", drive] == ["", "mnt", drive];
    FoldEmptyComponent();
    FoldPlain([], ["mnt", drive]);
    assert [] + ["mnt", drive] == ["mnt", drive];
  }

  lemma {:induction false} FirstShows(parts: seq<string>)
    requires parts != [] && parts[0] == "mnt"
    ensures |Rooted(parts)| >= 3 && Rooted(parts)[2] == 'n'
  {
  }

  /** Resolving against the normal form instead of the raw directory changes the directory itself, in
      more than case, whenever `to_posix` changes that form. */
  lemma {:induction false} ChangedFormShows(cwd: string)
    ensures
      var n := Normalized(ToPosix(cwd));
      ToPosix(n) != n ==> Lower(Normalized(ToPosix(n))) != Lower(n)
  {
    hide Normalized, Trim, Split, Join, Lower, Fold, Rooted, Plain;
    var n := Normalized(ToPosix(cwd));
    var t := Trim(n);
    StartsRooted(ToPosix(cwd));
    TrimRooted(n);
    LowerChars(n);
    LowerChars(Normalized(ToPosix(n)));
    if IsSlashDrive(t) {
      var parts := PartsOf(ToPosix(cwd));
      DriveMoves(n, t, parts);
      assert LowerChar('n') == 'n' && LowerChar('/') == '/' && n[2] == '/';
    } else {
      SlashesFree(t);
      SlashesFixed(t);
      assert ToPosix(n) == Slashes(t);
      NormalizeShortens(Slashes(t));
      if t == n && '\\' in n {
        NormalizeFree(Slashes(t), '\\');
        BackslashStays(n, Normalized(Slashes(t)));
      }
    }
  }

  lemma {:induction false} PartsOf(p: string) returns (parts: seq<string>)
    ensures Plain(parts) && Normalized(p) == Rooted(parts)
    ensures |Normalized(p)| > 1 ==> parts != []
  {
    SplitClean(p);
    FoldIsPlain([], Split(p, '/'));
    parts := Fold([], Split(p, '/'));
  }

  lemma {:induction false} BackslashStays(n: string, m: string)
    requires '\\' in n && '\\' !in m
    ensures Lower(n) != Lower(m)
  {
    LowerChars(n);
    LowerChars(m);
    var i :| 0 <= i < |n| && n[i] == '\\';
    assert LowerChar(n[i]) == '\\';
    if i < |m| {
      assert m[i] in m;
    }
  }

  lemma {:induction false} DotOperand(cwd: string, isWin: bool)
    ensures Operand(".", cwd, isWin) == Lower(Normalized(ToPosix(cwd)))
  {
    hide ToPosix, Normalized, Lower, Trim;
    OneCharacter('.', isWin);
    assert ['.'] == ".";
    DotResolves(ToPosix(cwd));
  }

  /** An operand of one plain character is left alone. */
  lemma {:induction false} OneCharacter(c: char, isWin: bool)
    requires c == '.' || c == 'y'
    ensures ToPosix(NfkcFold(ExpandTilde([c], isWin))) == [c] && Base([c]) == [c] && Wildcard([c]) == ""
  {
    hide Trim;
    assert [c][..0] == [] && [c][..1] == [c] && [c][0..] == [c];
    assert ExpandTilde([c], isWin) == [c];
    assert NfkcFold([c]) == [c] && Slashes([c]) == [c];
    TrimFixed([c]);
  }

  lemma {:induction false} DotResolves(dir: string)
    ensures Normalized(dir + "/" + ".") == Normalized(dir)
  {
    hide Split, Rooted;
    SplitConcat(dir, ".", '/');
    WholeSplits(".");
    assert (Split(dir, '/') + ["."])[..|Split(dir, '/')|] == Split(dir, '/');
  }

  /** Every operand resolves the same against the raw working directory and against its normal form
      exactly when that form survives `to_posix`. */
  lemma {:induction false} OperandCwdExactly(cwd: string, isWin: bool)
    ensures
      var n := Normalized(ToPosix(cwd));
      (forall operand :: Operand(operand, n, isWin) == Operand(operand, cwd, isWin)) <==> ToPosix(n) == n
  {
    hide Operand, Normalized, ToPosix, Lower;
    var n := Normalized(ToPosix(cwd));
    if ToPosix(n) == n {
      forall operand
        ensures Operand(operand, n, isWin) == Operand(operand, cwd, isWin)
      {
        OperandAgainstNormalCwd(operand, cwd, isWin);
      }
    } else {
      ChangedFormShows(cwd);
      DotOperand(cwd, isWin);
      DotOperand(n, isWin);
    }
  }

  /** It does not when that form reads as a drive: against "//c/x" the operand "y" is "/c/x/y", against
      the normal form "/c/x" it is "/mnt/c/x/y". */
  lemma {:induction false} OperandAgainstDriveCwd()
    ensures Normalized(ToPosix("//c/x")) == "/c/x"
    ensures Operand("y", "//c/x", false) == "/c/x/y" && Operand("y", "/c/x", false) == "/mnt/c/x/y"
  {
    hide ExpandTilde, NfkcFold, ToPosix, Normalized, Lower, Rooted, Wildcard, Base;
    OneCharacter('y', false);
    assert ['y'] == "y";
    DriveDirectories();
    NormalizeComposes("//c/x", "y");
    OneDeeper(["c", "x"], "y");
    OneDeeper(["mnt", "c", "x"], "y");
    DriveNames();
  }

  lemma {:induction false} DriveDirectories()
    ensures ToPosix("//c/x") == "//c/x" && ToPosix("/c/x") == "/mnt/c/x" && Normalized("//c/x") == Rooted(["c", "x"])
  {
    hide Trim, Slashes, Fold, Split, Rooted;
    TrimFixed("//c/x");
    TrimFixed("/c/x");
    SlashesFixed("//c/x");
    assert "/c/x"[3..] == "x";
    DriveComponents();
  }

  lemma {:induction false} DriveComponents()
    ensures Fold([], Split("//c/x", '/')) == ["c", "x"]
  {
    hide Split, Fold;
    var parts := ["c", "x"];
    SplitConcat("", Rooted(parts), '/');
    EmptySplits();
    FoldRooted(parts);
    FoldAppend([], [""], Split(Rooted(parts), '/'));
    FoldEmptyComponent();
    assert "" + ['/'] + Rooted(parts) == "//c/x";
  }

  lemma {:induction false} OneDeeper(parts: seq<string>, comp: string)
    requires Plain(parts) && parts != [] && IsPlain(comp)
    ensures Normalized(Rooted(parts) + "/" + comp) == Rooted(parts + [comp])
  {
    hide Split, Join, Fold, Rooted;
    SplitConcat(Rooted(parts), comp, '/');
    FoldAppend([], Split(Rooted(parts), '/'), Split(comp, '/'));
    FoldRooted(parts);
    WholeSplits(comp);
    FoldPlain(parts, [comp]);
  }

  lemma {:induction false} DriveNames()
    ensures Rooted(["c", "x"]) == "/c/x" && Rooted(["mnt", "c", "x"]) == "/mnt/c/x"
    ensures Rooted(["c", "x"] + ["y"]) == "/c/x/y" && Rooted(["mnt", "c", "x"] + ["y"]) == "/mnt/c/x/y"
    ensures Lower("/c/x/y") == "/c/x/y" && Lower("/mnt/c/x/y") == "/mnt/c/x/y"
  {
    hide Join, Lower;
    JoinTwo("c", "x");
    JoinThree("c", "x", "y");
    JoinThree("mnt", "c", "x");
    JoinFour("mnt", "c", "x", "y");
    assert ["c", "x"] + ["y"] == ["c", "x", "y"];
    assert ["mnt", "c", "x"] + ["y"] == ["mnt", "c", "x", "y"];
    LowerFixed("/c/x/y");
    LowerFixed("/mnt/c/x/y");
  }

  lemma {:induction false} JoinTwo(a: string, b: string)
    ensures Join([a, b], '/') == a + "/" + b
  {
    assert [a, b][1..] == [b];
  }

  lemma {:induction false} JoinThree(a: string, b: string, c: string)
    ensures Join([a, b, c], '/') == a + "/" + b + "/" + c
  {
    JoinTwo(b, c);
    assert [a, b, c][1..] == [b, c];
  }

  lemma {:induction false} JoinFour(a: string, b: string, c: string, d: string)
    ensures Join([a, b, c, d], '/') == a + "/" + b + "/" + c + "/" + d
  {
    JoinThree(b, c, d);
    assert [a, b, c, d][1..] == [b, c, d];
  }

  lemma {:induction false} LowerFixed(s: string)
    requires forall i :: 0 <= i < |s| ==> !IsUpper(s[i])
    ensures Lower(s) == s
  {
    if s != "" {
      LowerFixed(s[..|s| - 1]);
      assert s == s[..|s| - 1] + [s[|s| - 1]];
    }
  }
}
