/**
 Folding a path onto environment variables and expanding it again (`fold_env`,
 agent/crates/sr-agent/src/watcher/identity.rs; `expand_env`, restore/launch.rs). The
 environment is a parameter. Lengths count UTF-8 bytes, as the program's do, so a prefix may
 end inside a character, where the program panics.
 */
module PathFolding {
  import opened Options
  import opened Utf8

  /** `std::env::var`. */
  type Env = string -> Option<string>

  const VARS: seq<string> := [
    "LOCALAPPDATA", "APPDATA", "ProgramFiles(x86)", "ProgramFiles", "ProgramData", "SystemRoot", "USERPROFILE"]

  function Token(name: string): string { "%" + name + "%" }

  function LowerAscii(c: char): char { if 'A' <= c <= 'Z' then c - 'A' + 'a' else c }

  predicate SameButCase(a: string, b: string) {
    |a| == |b| && forall i :: 0 <= i < |a| ==> LowerAscii(a[i]) == LowerAscii(b[i])
  }

  // ----- Prefixes -----

  /** How many characters the first `bytes` bytes are; None when they end inside one. */
  function CharsIn(s: string, bytes: nat): (r: Option<nat>)
    ensures r.Some? ==> r.value <= |s| && ByteLen(s[..r.value]) == bytes
  {
    if bytes == 0 then Some(0)
    else if s == "" || Width(s[0]) > bytes then None
    else match CharsIn(s[1..], bytes - Width(s[0]))
      case None => None
      case Some(n) =>
        assert s[..n+1][1..] == s[1..][..n];
        Some(n + 1)
  }

  datatype PrefixTest = Same | Differs | SplitsCharacter

  /** `path.len() >= value.len() && path[..value.len()].eq_ignore_ascii_case(&value)` */
  function TestPrefix(path: string, value: string): PrefixTest {
    if ByteLen(path) < ByteLen(value) then Differs
    else match CharsIn(path, ByteLen(value))
      case None => SplitsCharacter
      case Some(n) => if SameButCase(path[..n], value) then Same else Differs
  }

  datatype Candidate = Candidate(value: string, name: string)

  predicate Matches(path: string, c: Candidate) {
    |path| >= |c.value| && SameButCase(path[..|c.value|], c.value)
  }

  predicate Splits(path: string, c: Candidate) { TestPrefix(path, c.value).SplitsCharacter? }

  lemma {:induction false} CharsInPrefix(s: string, n: nat)
    requires n <= |s|
    ensures CharsIn(s, ByteLen(s[..n])) == Some(n)
  {
    if n > 0 {
      assert s[..n][1..] == s[1..][..n-1];
      CharsInPrefix(s[1..], n - 1);
    }
  }

  lemma {:induction false} SameWidths(a: string, b: string)
    requires SameButCase(a, b)
    ensures ByteLen(a) == ByteLen(b)
  {
    if a != "" {
      assert LowerAscii(a[0]) == LowerAscii(b[0]);
      SameWidths(a[1..], b[1..]);
    }
  }

  /** The test on bytes finds exactly the paths that start with the value up to ASCII case. */
  lemma TestIsMatch(path: string, c: Candidate)
    ensures TestPrefix(path, c.value).Same? <==> Matches(path, c)
  {
    var n := |c.value|;
    if Matches(path, c) {
      SameWidths(path[..n], c.value);
      CharsInPrefix(path, n);
      assert path == path[..n] + path[n..];
      ByteLenConcat(path[..n], path[n..]);
    }
  }

  // ----- Folding -----

  /** Variables that are set and not empty, in the order of the table. */
  function Candidates(env: Env, names: seq<string>): (r: seq<Candidate>)
    ensures forall c :: c in r <==> c.name in names && env(c.name) == Some(c.value) && c.value != ""
  {
    if names == [] then []
    else
      var name := names[|names|-1];
      var rest := Candidates(env, names[..|names|-1]);
      assert names == names[..|names|-1] + [name];
      match env(name)
      case Some(value) => if value != "" then rest + [Candidate(value, name)] else rest
      case None => rest
  }

  /** Before the first shorter one, so after its equals: the sort is stable. */
  function Insert(cs: seq<Candidate>, c: Candidate): (r: seq<Candidate>)
    ensures forall x :: x in r <==> x in cs || x == c
  {
    if cs == [] || ByteLen(cs[0].value) < ByteLen(c.value) then [c] + cs else [cs[0]] + Insert(cs[1..], c)
  }

  /** `sort_by_key` on the length, longest first. */
  function LongestFirst(cs: seq<Candidate>): (r: seq<Candidate>)
    ensures forall x :: x in r <==> x in cs
  {
    if cs == [] then []
    else
      assert cs == cs[..|cs|-1] + [cs[|cs|-1]];
      Insert(LongestFirst(cs[..|cs|-1]), cs[|cs|-1])
  }

  predicate Descending(cs: seq<Candidate>) {
    forall i, j :: 0 <= i < j < |cs| ==> ByteLen(cs[i].value) >= ByteLen(cs[j].value)
  }

  lemma {:induction false} InsertDescending(cs: seq<Candidate>, c: Candidate)
    requires Descending(cs)
    ensures Descending(Insert(cs, c))
  {
    if cs != [] && ByteLen(cs[0].value) >= ByteLen(c.value) {
      InsertDescending(cs[1..], c);
      var rest := Insert(cs[1..], c);
      assert forall x :: x in rest ==> ByteLen(cs[0].value) >= ByteLen(x.value);
    }
  }

  lemma {:induction false} LongestFirstDescends(cs: seq<Candidate>)
    ensures Descending(LongestFirst(cs))
  {
    if cs != [] {
      LongestFirstDescends(cs[..|cs|-1]);
      InsertDescending(LongestFirst(cs[..|cs|-1]), cs[|cs|-1]);
    }
  }

  datatype Choice = Prefix(c: Candidate) | NoPrefix | Panics

  function FirstMatch(path: string, cs: seq<Candidate>): (r: Choice)
    ensures r.Prefix? ==> |r.c.value| <= |path|
  {
    if cs == [] then NoPrefix
    else match TestPrefix(path, cs[0].value)
      case Same => Prefix(cs[0])
      case SplitsCharacter => Panics
      case Differs => FirstMatch(path, cs[1..])
  }

  function Chosen(path: string, env: Env): Choice {
    FirstMatch(path, LongestFirst(Candidates(env, VARS)))
  }

  lemma {:induction false} FirstMatchIs(path: string, cs: seq<Candidate>)
    ensures var r := FirstMatch(path, cs);
      && (r.Prefix? ==> r.c in cs && Matches(path, r.c))
      && (r.NoPrefix? ==> forall c :: c in cs ==> !Matches(path, c))
  {
    if cs != [] {
      TestIsMatch(path, cs[0]);
      FirstMatchIs(path, cs[1..]);
    }
  }

  lemma ChosenIs(path: string, env: Env)
    ensures var r := Chosen(path, env);
      r.Prefix? ==> r.c.name in VARS && env(r.c.name) == Some(r.c.value) && r.c.value != "" && Matches(path, r.c)
  {
    FirstMatchIs(path, LongestFirst(Candidates(env, VARS)));
  }

  /** None where the program panics. */
  function Fold(path: string, env: Env): Option<string> {
    match Chosen(path, env)
    case Prefix(c) => Some(Token(c.name) + path[|c.value|..])
    case NoPrefix => Some(path)
    case Panics => None
  }

  method FoldEnv(path: string, env: Env) returns (r: Option<string>)
    ensures r == Fold(path, env)
  {
    var candidates := [];
    for i := 0 to |VARS|
      invariant candidates == Candidates(env, VARS[..i])
    {
      assert VARS[..i+1][..i] == VARS[..i];
      match env(VARS[i])
      case Some(value) => if value != "" { candidates := candidates + [Candidate(value, VARS[i])]; }
      case None =>
    }
    assert VARS[..|VARS|] == VARS;
    candidates := LongestFirst(candidates);
    for i := 0 to |candidates|
      invariant FirstMatch(path, candidates) == FirstMatch(path, candidates[i..])
    {
      var c := candidates[i];
      assert candidates[i..][0] == c && candidates[i..][1..] == candidates[i+1..];
      match TestPrefix(path, c.value)
      case Same =>
        TestIsMatch(path, c);
        return Some(Token(c.name) + path[|c.value|..]);
      case SplitsCharacter => return None;
      case Differs =>
    }
    r := Some(path);
  }

  lemma {:induction false} FirstIsLongest(path: string, cs: seq<Candidate>, other: Candidate)
    requires Descending(cs) && other in cs && !TestPrefix(path, other.value).Differs?
    ensures FirstMatch(path, cs).Prefix? ==> ByteLen(FirstMatch(path, cs).c.value) >= ByteLen(other.value)
    ensures !FirstMatch(path, cs).NoPrefix?
  {
    if TestPrefix(path, cs[0].value).Differs? {
      assert other in cs[1..];
      FirstIsLongest(path, cs[1..], other);
    } else {
      assert exists i :: 0 <= i < |cs| && cs[i] == other;
    }
  }

  lemma ChosenIsLongest(path: string, env: Env, name: string, value: string)
    requires name in VARS && env(name) == Some(value) && value != "" && Matches(path, Candidate(value, name))
    ensures Fold(path, env).Some? ==> Chosen(path, env).Prefix? && ByteLen(Chosen(path, env).c.value) >= ByteLen(value)
  {
    var cs := Candidates(env, VARS);
    assert Candidate(value, name) in cs;
    LongestFirstDescends(cs);
    TestIsMatch(path, Candidate(value, name));
    FirstIsLongest(path, LongestFirst(cs), Candidate(value, name));
  }

  predicate Foldable(name: string) {
    name in {"LOCALAPPDATA", "APPDATA", "ProgramFiles(x86)", "ProgramFiles", "ProgramData", "SystemRoot", "USERPROFILE"}
  }

  /** The path begins with the value of this variable, up to the case of ASCII letters. */
  predicate Begins(path: string, env: Env, name: string, value: string) {
    && Foldable(name) && env(name) == Some(value) && value != "" && |value| <= |path|
    && forall i :: 0 <= i < |value| ==> LowerAscii(path[i]) == LowerAscii(value[i])
  }

  lemma BeginsIs(path: string, env: Env, name: string, value: string)
    ensures Begins(path, env, name, value)
            <==> name in VARS && env(name) == Some(value) && value != "" && Matches(path, Candidate(value, name))
  {
    assert name in VARS <==> Foldable(name);
    if |value| <= |path| { assert forall i :: 0 <= i < |value| ==> path[..|value|][i] == path[i]; }
  }

  /**
   The beginning folded is the longest, in bytes, that is some set variable's value: that
   variable's token comes in its place. A path that begins with none is kept as it is.
   */
  lemma LongestPrefixFolds(path: string, env: Env)
    requires Fold(path, env).Some?
    ensures (forall name, value :: !Begins(path, env, name, value)) ==> Fold(path, env) == Some(path)
    ensures (exists name, value :: Begins(path, env, name, value)) ==>
      exists name, value :: Begins(path, env, name, value)
        && Fold(path, env).value == "%" + name + "%" + path[|value|..]
        && forall other, v :: Begins(path, env, other, v) ==> ByteLen(v) <= ByteLen(value)
  {
    ChosenIs(path, env);
    var r := Chosen(path, env);
    if r.Prefix? {
      BeginsIs(path, env, r.c.name, r.c.value);
    }
    forall other, v | Begins(path, env, other, v) ensures r.Prefix? && ByteLen(v) <= ByteLen(r.c.value) {
      BeginsIs(path, env, other, v);
      ChosenIsLongest(path, env, other, v);
    }
  }

  /** Some set variable ends inside a character of the path and is longer than every one the path starts with. */
  ghost predicate LongSplit(path: string, cs: seq<Candidate>) {
    exists c :: c in cs && Splits(path, c)
                && forall d :: d in cs && Matches(path, d) ==> ByteLen(d.value) < ByteLen(c.value)
  }

  lemma {:induction false} FirstSplits(path: string, cs: seq<Candidate>)
    requires Descending(cs) && FirstMatch(path, cs).Panics?
    ensures LongSplit(path, cs)
  {
    TestIsMatch(path, cs[0]);
    if Splits(path, cs[0]) {
      forall d | d in cs && Matches(path, d) ensures ByteLen(d.value) < ByteLen(cs[0].value) {
        TestIsMatch(path, d);
        assert exists i :: 0 <= i < |cs| && cs[i] == d;
      }
      assert cs[0] in cs;
    } else {
      FirstSplits(path, cs[1..]);
      var c :| c in cs[1..] && Splits(path, c)
               && forall d :: d in cs[1..] && Matches(path, d) ==> ByteLen(d.value) < ByteLen(c.value);
      assert c in cs;
    }
  }

  /** When the program panics. */
  lemma PanicsExactly(path: string, env: Env)
    ensures Fold(path, env).None? <==> LongSplit(path, Candidates(env, VARS))
  {
    var cs := LongestFirst(Candidates(env, VARS));
    LongestFirstDescends(Candidates(env, VARS));
    FirstMatchIs(path, cs);
    if Chosen(path, env).Panics? {
      FirstSplits(path, cs);
    } else if c :| c in cs && Splits(path, c)
                   && forall d :: d in cs && Matches(path, d) ==> ByteLen(d.value) < ByteLen(c.value) {
      FirstIsLongest(path, cs, c);
      assert false;
    }
  }

  /** It can: whichever variable it is, a value of three bytes ends inside the second character of this path. */
  lemma FoldCanPanic(name: string) returns (path: string, env: Env)
    requires name in VARS
    ensures forall other :: env(other).Some? <==> other == name
    ensures Fold(path, env).None?
  {
    var value := "a\U{00E9}";
    path := "a\U{65E5}";
    env := (n: string) => if n == name then Some(value) else None;
    assert value[1..] == "\U{00E9}" && path[1..] == "\U{65E5}";
    assert ByteLen(value[1..]) == 2 && ByteLen(path[1..]) == 3;
    assert CharsIn(path[1..], 2).None?;
    assert Splits(path, Candidate(value, name));
    assert Candidate(value, name) in Candidates(env, VARS);
    forall d | d in Candidates(env, VARS) && Matches(path, d) ensures false {
      TestIsMatch(path, d);
    }
    PanicsExactly(path, env);
  }

  // ----- Expanding -----

  function Find(s: string, c: char): (r: Option<nat>)
    ensures r.Some? ==> r.value < |s| && s[r.value] == c && forall i :: 0 <= i < r.value ==> s[i] != c
    ensures r.None? ==> forall i :: 0 <= i < |s| ==> s[i] != c
  {
    if s == "" then None
    else if s[0] == c then Some(0)
    else match Find(s[1..], c)
      case None => None
      case Some(i) => Some(i + 1)
  }

  /** A known variable's value; an unknown one stays as it was written. */
  function Resolve(name: string, env: Env): string {
    match env(name)
    case Some(value) => value
    case None => Token(name)
  }

  function Expand(input: string, env: Env): string
    decreases |input|
  {
    match Find(input, '%')
    case None => input
    case Some(start) =>
      var after := input[start+1..];
      match Find(after, '%')
      case None => input[..start] + "%" + after
      case Some(end) => input[..start] + Resolve(after[..end], env) + Expand(after[end+1..], env)
  }

  method ExpandEnv(input: string, env: Env) returns (out: string)
    ensures out == Expand(input, env)
  {
    out := "";
    var rest := input;
    assert Expand(input, env) == out + Expand(rest, env);
    while Find(rest, '%').Some?
      invariant Expand(input, env) == out + Expand(rest, env)
      decreases |rest|
    {
      var start := Find(rest, '%').value;
      var after := rest[start+1..];
      ghost var before := out;
      match Find(after, '%')
      case Some(end) =>
        out := out + rest[..start];
        out := PushVariable(out, after[..end], env);
        ExpandStep(before, rest, env, start, end);
        rest := after[end+1..];
      case None =>
        out := out + rest[..start] + "%" + after;
        ExpandLast(before, rest, env, start);
        rest := "";
    }
    out := out + rest;
  }

  method PushVariable(out: string, name: string, env: Env) returns (r: string)
    ensures r == out + Resolve(name, env)
  {
    match env(name)
    case Some(v) => r := out + v;
    case None =>
      r := out + "%" + name + "%";
      assert r == out + Token(name);
  }

  lemma ExpandIs(input: string, env: Env, start: nat, end: nat)
    requires Find(input, '%') == Some(start) && Find(input[start+1..], '%') == Some(end)
    ensures var after := input[start+1..];
      Expand(input, env) == input[..start] + Resolve(after[..end], env) + Expand(after[end+1..], env)
  {
  }

  lemma Regroup(a: string, b: string, c: string, d: string)
    ensures a + (b + c + d) == a + b + c + d
  {
  }

  /** Expanding past one variable, behind what is already out. */
  lemma ExpandStep(out: string, input: string, env: Env, start: nat, end: nat)
    requires Find(input, '%') == Some(start) && Find(input[start+1..], '%') == Some(end)
    ensures var after := input[start+1..];
      out + Expand(input, env) == out + input[..start] + Resolve(after[..end], env) + Expand(after[end+1..], env)
  {
    var after := input[start+1..];
    ExpandIs(input, env, start, end);
    Regroup(out, input[..start], Resolve(after[..end], env), Expand(after[end+1..], env));
  }

  /** A lone percent sign is the end of it. */
  lemma ExpandLast(out: string, input: string, env: Env, start: nat)
    requires Find(input, '%') == Some(start) && Find(input[start+1..], '%').None?
    ensures out + Expand(input, env) == out + input[..start] + "%" + input[start+1..] + Expand("", env)
  {
    assert Expand("", env) == "";
    Regroup(out, input[..start], "%", input[start+1..]);
  }

  // ----- Folding and expanding -----

  lemma FindsFirst(name: string, tail: string)
    requires '%' !in name
    ensures Find(name + "%" + tail, '%') == Some(|name|)
  {
    var s := name + "%" + tail;
    assert forall i :: 0 <= i < |name| ==> s[i] == name[i];
    assert s[|name|] == '%';
  }

  lemma NamesAreClean(name: string)
    requires name in VARS
    ensures '%' !in name
  {
  }

  lemma ExpandToken(pre: string, name: string, tail: string, env: Env)
    requires '%' !in pre && '%' !in name
    ensures Expand(pre + Token(name) + tail, env) == pre + Resolve(name, env) + Expand(tail, env)
  {
    var input := pre + Token(name) + tail;
    assert input == pre + "%" + (name + "%" + tail);
    FindsFirst(pre, name + "%" + tail);
    assert input[..|pre|] == pre;
    var after := input[|pre|+1..];
    assert after == name + "%" + tail;
    FindsFirst(name, tail);
    assert after[..|name|] == name && after[|name|+1..] == tail;
    ExpandIs(input, env, |pre|, |name|);
  }

  lemma CutAt(s: string, i: nat)
    requires Find(s, '%') == Some(i)
    ensures s == s[..i] + "%" + s[i+1..] && '%' !in s[..i]
  {
  }

  lemma TokenInside(a: string, name: string, c: string)
    ensures a + "%" + (name + "%" + c) == a + Token(name) + c
  {
    assert Token(name) == "%" + (name + "%");
    assert name + "%" + c == (name + "%") + c;
  }

  datatype Piece = Piece(pre: string, name: string, rest: string)

  /** The first token, with the text before and after it. */
  function FirstToken(s: string): (r: Option<Piece>)
    ensures r.Some? ==> var p := r.value;
              s == p.pre + Token(p.name) + p.rest && '%' !in p.pre && '%' !in p.name && |p.rest| < |s|
  {
    match Find(s, '%')
    case None => None
    case Some(start) =>
      var after := s[start+1..];
      match Find(after, '%')
      case None => None
      case Some(end) =>
        CutAt(s, start);
        CutAt(after, end);
        TokenInside(s[..start], after[..end], after[end+1..]);
        Some(Piece(s[..start], after[..end], after[end+1..]))
  }

  lemma ExpandPiece(s: string, env: Env)
    ensures Expand(s, env) ==
      match FirstToken(s)
      case None => s
      case Some(p) => p.pre + Resolve(p.name, env) + Expand(p.rest, env)
  {
    if Find(s, '%').Some? { CutAt(s, Find(s, '%').value); }
  }

  /** Every token, read from the left, names a variable that is not set. */
  predicate Inert(s: string, env: Env)
    decreases |s|
  {
    match FirstToken(s)
    case None => true
    case Some(p) => env(p.name).None? && Inert(p.rest, env)
  }

  lemma {:induction false} ExpandInert(s: string, env: Env)
    requires Inert(s, env)
    ensures Expand(s, env) == s
    decreases |s|
  {
    ExpandPiece(s, env);
    if FirstToken(s).Some? { ExpandInert(FirstToken(s).value.rest, env); }
  }

  function Percents(s: string): nat {
    if s == "" then 0 else (if s[0] == '%' then 1 else 0) + Percents(s[1..])
  }

  lemma {:induction false} PercentsConcat(a: string, b: string)
    ensures Percents(a + b) == Percents(a) + Percents(b)
  {
    if a == "" {
      assert a + b == b;
    } else {
      assert (a + b)[1..] == a[1..] + b;
      PercentsConcat(a[1..], b);
    }
  }

  lemma {:induction false} NoPercent(s: string)
    requires '%' !in s
    ensures Percents(s) == 0
  {
    if s != "" { NoPercent(s[1..]); }
  }

  lemma {:induction false} SamePercents(a: string, b: string)
    requires SameButCase(a, b)
    ensures Percents(a) == Percents(b)
  {
    if a != "" {
      assert LowerAscii(a[0]) == LowerAscii(b[0]);
      SamePercents(a[1..], b[1..]);
    }
  }

  /** No variable's value holds a percent sign. */
  ghost predicate CleanValues(env: Env) {
    forall name :: env(name).Some? ==> '%' !in env(name).value
  }

  lemma PercentsOfThree(a: string, b: string, c: string)
    ensures Percents(a + b + c) == Percents(a) + Percents(b) + Percents(c)
  {
    PercentsConcat(a, b);
    PercentsConcat(a + b, c);
  }

  lemma TokenPercents(name: string)
    requires '%' !in name
    ensures Percents(Token(name)) == 2
  {
    PercentsOfThree("%", name, "%");
    NoPercent(name);
  }

  /** Every token that is expanded takes its percent signs with it. */
  lemma {:induction false} ExpandPercents(s: string, env: Env)
    requires CleanValues(env)
    ensures Percents(Expand(s, env)) <= Percents(s)
    ensures Percents(Expand(s, env)) == Percents(s) ==> Inert(s, env)
    decreases |s|
  {
    ExpandPiece(s, env);
    if FirstToken(s).Some? {
      var p := FirstToken(s).value;
      ExpandPercents(p.rest, env);
      OneTokenPercents(p.pre, p.name, p.rest, env);
    }
  }

  lemma OneTokenPercents(pre: string, name: string, tail: string, env: Env)
    requires CleanValues(env) && '%' !in pre && '%' !in name
    ensures Percents(pre + Token(name) + tail) == 2 + Percents(tail)
    ensures Percents(pre + Resolve(name, env) + Expand(tail, env))
            == (if env(name).Some? then 0 else 2) + Percents(Expand(tail, env))
  {
    NoPercent(pre);
    TokenPercents(name);
    PercentsOfThree(pre, Token(name), tail);
    PercentsOfThree(pre, Resolve(name, env), Expand(tail, env));
    if env(name).Some? { NoPercent(env(name).value); }
  }

  /** What folding leaves as it is written. */
  function Unfolded(path: string, env: Env): string {
    match Chosen(path, env)
    case Prefix(c) => path[|c.value|..]
    case _ => path
  }

  /** The prefix, if one was folded, is spelled as in the environment. */
  predicate SpelledAlike(path: string, env: Env) {
    Chosen(path, env).Prefix? ==> Chosen(path, env).c.value <= path
  }

  lemma SameConcat(a: string, b: string, c: string, d: string)
    requires SameButCase(a, c)
    ensures SameButCase(a + b, c + d) <==> SameButCase(b, d)
    ensures a + b == c + d <==> a == c && b == d
  {
    var s, t := a + b, c + d;
    assert s[..|a|] == a && t[..|a|] == c && s[|a|..] == b && t[|a|..] == d;
    if SameButCase(s, t) {
      forall i | 0 <= i < |b| ensures LowerAscii(b[i]) == LowerAscii(d[i]) {
        assert s[|a| + i] == b[i] && t[|a| + i] == d[i];
      }
    }
  }

  lemma ExpandPrefix(name: string, rest: string, env: Env)
    requires '%' !in name
    ensures Expand(Token(name) + rest, env) == Resolve(name, env) + Expand(rest, env)
  {
    ExpandToken("", name, rest, env);
    assert "" + Token(name) == Token(name) && "" + Resolve(name, env) == Resolve(name, env);
  }

  lemma PrefixComesBack(path: string, value: string, back: string)
    requires Matches(path, Candidate(value, ""))
    ensures var rest := path[|value|..];
      && (SameButCase(value + back, path) <==> SameButCase(back, rest))
      && (value + back == path <==> value <= path && back == rest)
  {
    var n := |value|;
    assert path == path[..n] + path[n..];
    SameConcat(value, back, path[..n], path[n..]);
  }

  /** Only the unfolded rest can come back changed. */
  lemma RestDecides(path: string, env: Env)
    requires Fold(path, env).Some?
    ensures var back := Expand(Fold(path, env).value, env); var rest := Unfolded(path, env);
      && (SameButCase(back, path) <==> SameButCase(Expand(rest, env), rest))
      && (back == path <==> SpelledAlike(path, env) && Expand(rest, env) == rest)
  {
    ChosenIs(path, env);
    match Chosen(path, env)
    case Prefix(c) =>
      var rest := path[|c.value|..];
      NamesAreClean(c.name);
      ExpandPrefix(c.name, rest, env);
      PrefixComesBack(path, c.value, Expand(rest, env));
    case NoPrefix =>
    case Panics =>
  }

  lemma SameIsEqualPercents(rest: string, env: Env)
    requires CleanValues(env)
    ensures SameButCase(Expand(rest, env), rest) <==> Inert(rest, env)
  {
    if Inert(rest, env) {
      ExpandInert(rest, env);
    } else {
      ExpandPercents(rest, env);
      if SameButCase(Expand(rest, env), rest) { SamePercents(Expand(rest, env), rest); }
    }
  }

  /**
   Expanding what was folded, on the same machine, gives the path back up to the letter case of
   the folded prefix when every token in the rest names a variable that is not set; and only
   then, if no variable's value holds a percent sign. It gives back the very path when, besides,
   the prefix is spelled as in the environment.
   */
  lemma FoldThenExpand(path: string, env: Env)
    requires Fold(path, env).Some?
    ensures var back := Expand(Fold(path, env).value, env); var rest := Unfolded(path, env);
      && (Inert(rest, env) ==> SameButCase(back, path) && (back == path <==> SpelledAlike(path, env)))
      && (CleanValues(env) ==> (SameButCase(back, path) <==> Inert(rest, env)))
  {
    RestDecides(path, env);
    if Inert(Unfolded(path, env), env) { ExpandInert(Unfolded(path, env), env); }
    if CleanValues(env) { SameIsEqualPercents(Unfolded(path, env), env); }
  }

  /**
   Whatever the values hold: a path with one token comes back exactly if its variable is unset
   or spells the token.
   */
  lemma TokenComesBack(path: string, env: Env, pre: string, name: string, post: string)
    requires Fold(path, env).Some? && Unfolded(path, env) == pre + Token(name) + post
    requires '%' !in pre && '%' !in name && '%' !in post
    ensures SameButCase(Expand(Fold(path, env).value, env), path)
            <==> env(name).None? || SameButCase(env(name).value, Token(name))
  {
    RestDecides(path, env);
    ExpandToken(pre, name, post, env);
    ExpandInert(post, env);
    SameMiddle(pre, Resolve(name, env), Token(name), post);
  }

  lemma SameMiddle(pre: string, a: string, b: string, post: string)
    ensures SameButCase(pre + a + post, pre + b + post) <==> SameButCase(a, b)
  {
    assert pre + a + post == pre + (a + post) && pre + b + post == pre + (b + post);
    SameConcat(pre, a + post, pre, b + post);
    if |a| == |b| {
      assert forall i :: 0 <= i < |a| ==> (a + post)[i] == a[i] && (b + post)[i] == b[i];
    }
  }
}
