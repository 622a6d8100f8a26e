/**
 Splitting a command line and redacting what it must not keep (`split_args`, `redact_arg`,
 `redact_command_line`; agent/crates/sr-agent/src/watcher/identity.rs). Lower-casing is a
 parameter; lengths count UTF-8 bytes, as the program's do.
 */
module CommandLine {
  import opened Decimals
  import opened Options
  import Utf8

  /** `str::len`. */
  function Len(s: string): nat { Utf8.ByteLen(s) }

  /** The characters with the Unicode property White_Space. */
  predicate IsSpace(c: char) {
    '\U{0009}' <= c <= '\U{000D}' || c == ' ' || c == '\U{0085}' || c == '\U{00A0}' || c == '\U{1680}'
    || '\U{2000}' <= c <= '\U{200A}' || c == '\U{2028}' || c == '\U{2029}' || c == '\U{202F}' || c == '\U{205F}'
    || c == '\U{3000}'
  }

  // ----- Splitting -----

  /** The scanner: finished arguments, the current one, and whether a quote is open. */
  datatype Scan = Scan(args: seq<string>, cur: string, inQuotes: bool)

  function Push(s: Scan): Scan { if s.cur == "" then s else Scan(s.args + [s.cur], "", s.inQuotes) }

  function Feed(s: Scan, c: char): Scan {
    if c == '"' then Scan(s.args, s.cur + [c], !s.inQuotes)
    else if IsSpace(c) && !s.inQuotes then Push(s)
    else Scan(s.args, s.cur + [c], s.inQuotes)
  }

  function FeedAll(s: Scan, cmd: string): Scan {
    if cmd == "" then s else Feed(FeedAll(s, cmd[..|cmd|-1]), cmd[|cmd|-1])
  }

  const START := Scan([], "", false)

  function Split(cmd: string): seq<string> { Push(FeedAll(START, cmd)).args }

  method SplitArgs(cmd: string) returns (args: seq<string>)
    ensures args == Split(cmd)
  {
    args := [];
    var cur, inQuotes := "", false;
    for i := 0 to |cmd|
      invariant Scan(args, cur, inQuotes) == FeedAll(START, cmd[..i])
    {
      assert cmd[..i+1][..i] == cmd[..i];
      var c := cmd[i];
      if c == '"' {
        inQuotes := !inQuotes;
        cur := cur + [c];
      } else if IsSpace(c) && !inQuotes {
        if cur != "" { args, cur := args + [cur], ""; }
      } else {
        cur := cur + [c];
      }
    }
    assert cmd[..|cmd|] == cmd;
    if cur != "" { args := args + [cur]; }
  }

  function Join(args: seq<string>): string {
    if args == [] then "" else if |args| == 1 then args[0] else Join(args[..|args|-1]) + " " + args[|args|-1]
  }

  /** Whether a quote is open after these characters. */
  predicate Open(s: string, inQuotes: bool) {
    if s == "" then inQuotes else (Open(s[..|s|-1], inQuotes) != (s[|s|-1] == '"'))
  }

  /** No space stands outside quotes. */
  predicate Solid(s: string) {
    forall i :: 0 <= i < |s| && IsSpace(s[i]) ==> Open(s[..i], false)
  }

  /** What a list of arguments looks like: only the last one may leave a quote open. */
  predicate WellFormed(args: seq<string>) {
    && (forall i :: 0 <= i < |args| ==> args[i] != "" && Solid(args[i]))
    && (forall i :: 0 <= i < |args| - 1 ==> !Open(args[i], false))
  }

  lemma {:induction false} FeedConcat(s: Scan, a: string, b: string)
    ensures FeedAll(s, a + b) == FeedAll(FeedAll(s, a), b)
  {
    if b == "" {
      assert a + b == a;
    } else {
      var n := |b| - 1;
      assert (a + b)[..|a| + n] == a + b[..n];
      FeedConcat(s, a, b[..n]);
    }
  }

  lemma SolidPrefix(arg: string, n: nat)
    requires Solid(arg) && n <= |arg|
    ensures Solid(arg[..n])
  {
    forall i | 0 <= i < n && IsSpace(arg[..n][i]) ensures Open(arg[..n][..i], false) {
      assert arg[..n][..i] == arg[..i];
    }
  }

  /** A solid argument is taken in whole. */
  lemma {:induction false} FeedSolid(args: seq<string>, arg: string)
    requires Solid(arg)
    ensures FeedAll(Scan(args, "", false), arg) == Scan(args, arg, Open(arg, false))
  {
    if arg != "" {
      var n := |arg| - 1;
      SolidPrefix(arg, n);
      FeedSolid(args, arg[..n]);
      assert arg[..n] + [arg[n]] == arg;
      assert arg[..n][..n] == arg[..n];
    }
  }

  lemma WellFormedPrefix(args: seq<string>)
    requires WellFormed(args) && |args| > 1
    ensures WellFormed(args[..|args|-1]) && !Open(args[|args|-2], false)
  {
  }

  /** After a closed argument, a space and the next one. */
  lemma FeedNext(head: string, init: seq<string>, last: string, arg: string)
    requires FeedAll(START, head) == Scan(init, last, false) && last != "" && Solid(arg)
    ensures FeedAll(START, head + " " + arg) == Scan(init + [last], arg, Open(arg, false))
  {
    FeedConcat(START, head + " ", arg);
    assert (head + " ")[..|head|] == head;
    assert FeedAll(START, head + " ") == Feed(FeedAll(START, head), ' ');
    FeedSolid(init + [last], arg);
  }

  lemma JoinSnoc(args: seq<string>)
    requires |args| > 1
    ensures Join(args) == Join(args[..|args|-1]) + " " + args[|args|-1]
  {
  }

  lemma InitSnoc(args: seq<string>, n: nat)
    requires 0 < n <= |args|
    ensures args[..n] == args[..n-1] + [args[n-1]]
  {
  }

  lemma {:induction false} FeedJoin(args: seq<string>)
    requires WellFormed(args) && args != []
    ensures var n := |args| - 1;
      FeedAll(START, Join(args)) == Scan(args[..n], args[n], Open(args[n], false))
  {
    var n := |args| - 1;
    if n == 0 {
      FeedSolid([], args[0]);
    } else {
      var init := args[..n];
      var head := Join(init);
      WellFormedPrefix(args);
      FeedJoin(init);
      assert FeedAll(START, head) == Scan(args[..n-1], args[n-1], false) by { assert init[..n-1] == args[..n-1]; }
      FeedNext(head, args[..n-1], args[n-1], args[n]);
      JoinSnoc(args);
      InitSnoc(args, n);
    }
  }

  /** Splitting undoes joining, for every well-formed list of arguments. */
  lemma SplitJoin(args: seq<string>)
    requires WellFormed(args)
    ensures Split(Join(args)) == args
  {
    if args != [] {
      FeedJoin(args);
      assert args[..|args|-1] + [args[|args|-1]] == args;
    }
  }

  /** What scanning keeps true: finished arguments are solid and closed, the current one is solid. */
  predicate Scanned(s: Scan) {
    && (forall i :: 0 <= i < |s.args| ==> s.args[i] != "" && Solid(s.args[i]) && !Open(s.args[i], false))
    && Solid(s.cur) && s.inQuotes == Open(s.cur, false)
  }

  lemma SolidMore(s: string, c: char)
    requires Solid(s) && (IsSpace(c) ==> Open(s, false))
    ensures Solid(s + [c]) && Open(s + [c], false) == (Open(s, false) != (c == '"'))
  {
    assert (s + [c])[..|s|] == s;
    forall i | 0 <= i < |s + [c]| && IsSpace((s + [c])[i]) ensures Open((s + [c])[..i], false) {
      if i < |s| { assert (s + [c])[..i] == s[..i]; }
    }
  }

  lemma {:induction false} ScanKeeps(cmd: string)
    ensures Scanned(FeedAll(START, cmd))
  {
    if cmd != "" {
      var s, c := FeedAll(START, cmd[..|cmd|-1]), cmd[|cmd|-1];
      ScanKeeps(cmd[..|cmd|-1]);
      if !(IsSpace(c) && !s.inQuotes && c != '"') { SolidMore(s.cur, c); }
    }
  }

  lemma SplitIsWellFormed(cmd: string)
    ensures WellFormed(Split(cmd))
  {
    ScanKeeps(cmd);
  }

  /** Joining what was split and splitting again changes nothing. */
  lemma SplitJoinSplit(cmd: string)
    ensures Split(Join(Split(cmd))) == Split(cmd)
  {
    SplitIsWellFormed(cmd);
    SplitJoin(Split(cmd));
  }

  // ----- Redacting -----

  type Lower = string -> string

  const SECRET_KEYS: seq<string> := [
    "password", "passwd", "pwd", "token", "access_token", "refresh_token", "api_key",
    "apikey", "secret", "client_secret", "client-secret", "auth", "authorization",
    "session", "sessionid", "session_id", "key"]

  function Find(s: string, want: char -> bool): (r: Option<nat>)
    ensures r.Some? ==> r.value < |s| && want(s[r.value]) && forall i :: 0 <= i < r.value ==> !want(s[i])
    ensures r.None? ==> forall i :: 0 <= i < |s| ==> !want(s[i])
  {
    if s == "" then None
    else if want(s[0]) then Some(0)
    else match Find(s[1..], want)
      case None => None
      case Some(i) => Some(i + 1)
  }

  predicate Separator(c: char) { c == '=' || c == ':' }

  predicate QuestionMark(c: char) { c == '?' }

  function TrimSwitch(s: string): string {
    if s != "" && (s[0] == '-' || s[0] == '/') then TrimSwitch(s[1..]) else s
  }

  predicate EndsWith(s: string, end: string) { |end| <= |s| && s[|s|-|end|..] == end }

  predicate StartsWith(s: string, start: string) { start <= s }

  /** A name whose value is a secret; one letter is a drive. */
  predicate NamesSecret(name: string, lower: Lower) {
    var stem := lower(TrimSwitch(name));
    Len(stem) > 1 && exists k :: k in SECRET_KEYS && EndsWith(stem, k)
  }

  function Sentinel(n: nat): string { "<redacted:" + DecimalNat(n) + ">" }

  function RedactKeyValue(arg: string, lower: Lower): Option<string> {
    match Find(arg, Separator)
    case None => None
    case Some(pos) =>
      var name, value := arg[..pos], arg[pos+1..];
      if value != "" && NamesSecret(name, lower) then Some(name + [arg[pos]] + Sentinel(Len(value))) else None
  }

  predicate LooksLikeCredential(arg: string, lower: Lower) {
    || StartsWith(lower(arg), "bearer ")
    || StartsWith(arg, "eyJ")
    || (StartsWith(arg, "ghp_") && Len(arg) > 20)
    || (StartsWith(arg, "AKIA") && Len(arg) == 20)
    || (StartsWith(arg, "xox") && Len(arg) > 20)
  }

  function RedactUrl(arg: string, lower: Lower): Option<string> {
    if StartsWith(lower(arg), "http://") || StartsWith(lower(arg), "https://") then
      match Find(arg, QuestionMark)
      case None => None
      case Some(cut) => Some(arg[..cut] + "?" + Sentinel(Len(arg[cut+1..])))
    else None
  }

  function RedactArg(arg: string, lower: Lower): Option<string> {
    if RedactKeyValue(arg, lower).Some? then RedactKeyValue(arg, lower)
    else if LooksLikeCredential(arg, lower) then Some(Sentinel(Len(arg)))
    else RedactUrl(arg, lower)
  }

  /** How an argument is stored: None keeps it as it is. */
  type Redactor = string -> Option<string>

  function RedactorOf(lower: Lower): Redactor { arg => RedactArg(arg, lower) }

  function Kept(arg: string, redact: Redactor): string {
    match redact(arg)
    case Some(r) => r
    case None => arg
  }

  function KeptAll(args: seq<string>, redact: Redactor): (r: seq<string>)
    ensures |r| == |args| && forall i :: 0 <= i < |args| ==> r[i] == Kept(args[i], redact)
  {
    seq(|args|, i requires 0 <= i < |args| => Kept(args[i], redact))
  }

  predicate AnyRedacted(args: seq<string>, redact: Redactor) {
    exists i :: 0 <= i < |args| && redact(args[i]).Some?
  }

  function Redact(cmd: string, lower: Lower): (string, bool) {
    (Join(KeptAll(Split(cmd), RedactorOf(lower))), AnyRedacted(Split(cmd), RedactorOf(lower)))
  }

  lemma KeptSnoc(args: seq<string>, arg: string, redact: Redactor)
    ensures KeptAll(args + [arg], redact) == KeptAll(args, redact) + [Kept(arg, redact)]
    ensures AnyRedacted(args + [arg], redact) <==> AnyRedacted(args, redact) || redact(arg).Some?
  {
    var all := args + [arg];
    assert all[|args|] == arg;
    if AnyRedacted(args, redact) {
      var i :| 0 <= i < |args| && redact(args[i]).Some?;
      assert all[i] == args[i];
    }
  }

  method RedactAll(args: seq<string>, redact: Redactor) returns (kept: seq<string>, redacted: bool)
    ensures kept == KeptAll(args, redact) && redacted == AnyRedacted(args, redact)
  {
    kept, redacted := [], false;
    for i := 0 to |args|
      invariant kept == KeptAll(args[..i], redact) && redacted == AnyRedacted(args[..i], redact)
    {
      KeptSnoc(args[..i], args[i], redact);
      assert args[..i] + [args[i]] == args[..i+1];
      match redact(args[i])
      case Some(r) =>
        redacted := true;
        kept := kept + [r];
      case None =>
        kept := kept + [args[i]];
    }
    assert args[..|args|] == args;
  }

  method RedactCommandLine(cmd: string, lower: Lower) returns (out: string, redacted: bool)
    ensures (out, redacted) == Redact(cmd, lower)
  {
    var args := SplitArgs(cmd);
    var kept;
    kept, redacted := RedactAll(args, RedactorOf(lower));
    out := Join(kept);
  }

  // ----- What is redacted, and how -----

  predicate SwitchMark(c: char) { c == '-' || c == '/' }

  predicate SecretKey(k: string) {
    k in {"password", "passwd", "pwd", "token", "access_token", "refresh_token", "api_key", "apikey", "secret",
          "client_secret", "client-secret", "auth", "authorization", "session", "sessionid", "session_id", "key"}
  }

  /** The name without its switches: the marks it begins with, all of them. */
  ghost predicate StemAt(name: string, n: nat) {
    && n <= |name| && (forall i :: 0 <= i < n ==> SwitchMark(name[i])) && (n < |name| ==> !SwitchMark(name[n]))
  }

  lemma {:induction false} TrimIs(name: string) returns (n: nat)
    ensures StemAt(name, n) && TrimSwitch(name) == name[n..]
  {
    if name != "" && SwitchMark(name[0]) {
      n := TrimIs(name[1..]);
      assert name[1..][n..] == name[n+1..];
      assert forall i | 0 < i <= n :: name[i] == name[1..][i-1];
      n := n + 1;
    } else {
      n := 0;
    }
  }

  /** A name whose lower-case stem, of more than one byte, ends in one of the keys. */
  ghost predicate SecretName(name: string, lower: Lower) {
    exists n: nat, begin: string, k: string ::
      StemAt(name, n) && lower(name[n..]) == begin + k && SecretKey(k) && Len(begin + k) > 1
  }

  lemma SecretNames(name: string, lower: Lower)
    ensures NamesSecret(name, lower) <==> SecretName(name, lower)
  {
    var m := TrimIs(name);
    var stem := lower(name[m..]);
    if NamesSecret(name, lower) {
      var k :| k in SECRET_KEYS && EndsWith(stem, k);
      assert stem == stem[..|stem|-|k|] + k && SecretKey(k);
    }
    if SecretName(name, lower) {
      var n: nat, begin: string, k: string :|
        StemAt(name, n) && lower(name[n..]) == begin + k && SecretKey(k) && Len(begin + k) > 1;
      assert n == m;
      assert EndsWith(begin + k, k) && k in SECRET_KEYS;
    }
  }

  /** At the first separator a secret's name ends, and its value is not empty. */
  ghost predicate HasSecretValue(arg: string, pos: nat, lower: Lower) {
    && pos + 1 < |arg| && (arg[pos] == '=' || arg[pos] == ':')
    && (forall i :: 0 <= i < pos ==> arg[i] != '=' && arg[i] != ':') && SecretName(arg[..pos], lower)
  }

  predicate CredentialShape(arg: string, lower: Lower) {
    || "bearer " <= lower(arg) || "eyJ" <= arg
    || ("ghp_" <= arg && Len(arg) > 20) || ("AKIA" <= arg && Len(arg) == 20) || ("xox" <= arg && Len(arg) > 20)
  }

  ghost predicate HasQuery(arg: string, cut: nat, lower: Lower) {
    && ("http://" <= lower(arg) || "https://" <= lower(arg))
    && cut < |arg| && arg[cut] == '?' && forall i :: 0 <= i < cut ==> arg[i] != '?'
  }

  /** Kept are the first n characters; of the rest, only how many bytes they were. */
  predicate KeptUpTo(arg: string, n: nat, stored: string) {
    n <= |arg| && stored == arg[..n] + "<redacted:" + DecimalNat(Len(arg[n..])) + ">"
  }

  ghost predicate GivesSecret(arg: string, lower: Lower) { exists pos: nat :: HasSecretValue(arg, pos, lower) }

  ghost predicate AsksQuery(arg: string, lower: Lower) { exists cut: nat :: HasQuery(arg, cut, lower) }

  /** The argument is stored up to there. */
  predicate StoredTo(arg: string, n: nat, lower: Lower) {
    RedactArg(arg, lower).Some? && KeptUpTo(arg, n, RedactArg(arg, lower).value)
  }

  lemma FoundFirst(s: string, want: char -> bool, n: nat)
    requires n < |s| && want(s[n]) && forall i :: 0 <= i < n ==> !want(s[i])
    ensures Find(s, want) == Some(n)
  {
  }

  lemma KeyValueIs(arg: string, pos: nat, lower: Lower)
    requires HasSecretValue(arg, pos, lower)
    ensures StoredTo(arg, pos + 1, lower)
  {
    FoundFirst(arg, Separator, pos);
    SecretNames(arg[..pos], lower);
    assert arg[..pos] + [arg[pos]] == arg[..pos+1];
    assert RedactKeyValue(arg, lower) == Some(arg[..pos+1] + Sentinel(Len(arg[pos+1..])));
  }

  lemma NoKeyValue(arg: string, lower: Lower)
    requires !GivesSecret(arg, lower)
    ensures RedactKeyValue(arg, lower).None?
  {
    match Find(arg, Separator)
    case None =>
    case Some(pos) =>
      SecretNames(arg[..pos], lower);
      assert !HasSecretValue(arg, pos, lower);
  }

  /**
   An argument is changed exactly if it gives a secret's value, has the shape of a credential, or
   is an address with a query; in that order it is cut after the separator, to nothing, or after
   the question mark, and of what is cut only the length is kept.
   */
  lemma RedactedExactly(arg: string, lower: Lower)
    ensures RedactArg(arg, lower).Some?
            <==> GivesSecret(arg, lower) || CredentialShape(arg, lower) || AsksQuery(arg, lower)
    ensures forall pos: nat :: HasSecretValue(arg, pos, lower) ==> StoredTo(arg, pos + 1, lower)
    ensures !GivesSecret(arg, lower) && CredentialShape(arg, lower) ==> StoredTo(arg, 0, lower)
    ensures !GivesSecret(arg, lower) && !CredentialShape(arg, lower) ==>
      forall cut: nat :: HasQuery(arg, cut, lower) ==> StoredTo(arg, cut + 1, lower)
  {
    forall pos: nat | HasSecretValue(arg, pos, lower) ensures StoredTo(arg, pos + 1, lower) {
      KeyValueIs(arg, pos, lower);
    }
    if !GivesSecret(arg, lower) {
      NoKeyValue(arg, lower);
      if CredentialShape(arg, lower) {
        assert arg[0..] == arg && arg[..0] == "";
        assert RedactArg(arg, lower) == Some(Sentinel(Len(arg)));
      } else {
        QueryIs(arg, lower);
      }
    }
  }

  lemma QueryIs(arg: string, lower: Lower)
    requires RedactKeyValue(arg, lower).None? && !CredentialShape(arg, lower)
    ensures forall cut: nat :: HasQuery(arg, cut, lower) ==> StoredTo(arg, cut + 1, lower)
    ensures RedactArg(arg, lower).Some? ==> AsksQuery(arg, lower)
  {
    assert RedactArg(arg, lower) == RedactUrl(arg, lower);
    forall cut: nat | HasQuery(arg, cut, lower) ensures StoredTo(arg, cut + 1, lower) {
      FoundFirst(arg, QuestionMark, cut);
      assert arg[..cut] + "?" == arg[..cut+1];
    }
    if RedactArg(arg, lower).Some? { assert HasQuery(arg, Find(arg, QuestionMark).value, lower); }
  }

  /** So `--db-password=x` is stored as its name and how long x is. */
  lemma NamedValueIsCut(name: string, sep: char, value: string, lower: Lower)
    requires SecretName(name, lower) && (sep == '=' || sep == ':') && value != ""
    requires forall i :: 0 <= i < |name| ==> name[i] != '=' && name[i] != ':'
    ensures RedactArg(name + [sep] + value, lower)
            == Some(name + [sep] + "<redacted:" + DecimalNat(Len(value)) + ">")
  {
    var head := name + [sep];
    var arg := head + value;
    assert arg[..|name|] == name && arg[..|name|+1] == head && arg[|name|+1..] == value;
    assert forall i | 0 <= i < |name| :: arg[i] == name[i];
    KeyValueIs(arg, |name|, lower);
  }

  // ----- Secrets do not show -----

  predicate Plain(c: char) { c != '"' && !IsSpace(c) }

  /** The same text but for characters that neither split nor quote. */
  predicate Alike(a: string, b: string) {
    |a| == |b| && forall i :: 0 <= i < |a| ==> a[i] == b[i] || (Plain(a[i]) && Plain(b[i]))
  }

  predicate AllAlike(a: seq<string>, b: seq<string>) {
    |a| == |b| && forall i :: 0 <= i < |a| ==> Alike(a[i], b[i])
  }

  /** Two arguments that are the same secret with different values of one length in bytes. */
  predicate Twins(a: string, b: string, lower: Lower) {
    match Find(a, Separator)
    case None => false
    case Some(pos) =>
      && pos + 1 < |a| && pos + 1 < |b| && a[..pos+1] == b[..pos+1] && NamesSecret(a[..pos], lower)
      && Len(a[pos+1..]) == Len(b[pos+1..])
  }

  /** Two credentials of a recognisable shape and one length. */
  predicate BothCredentials(a: string, b: string, lower: Lower) {
    && Len(a) == Len(b) && RedactKeyValue(a, lower).None? && RedactKeyValue(b, lower).None?
    && LooksLikeCredential(a, lower) && LooksLikeCredential(b, lower)
  }

  predicate IsUrl(arg: string, lower: Lower) {
    RedactKeyValue(arg, lower).None? && !LooksLikeCredential(arg, lower)
    && (StartsWith(lower(arg), "http://") || StartsWith(lower(arg), "https://"))
  }

  /** Two addresses that are the same up to the query, and have queries of one length. */
  predicate SameButQuery(a: string, b: string, lower: Lower) {
    IsUrl(a, lower) && IsUrl(b, lower)
    && match Find(a, QuestionMark)
       case None => false
       case Some(cut) => cut < |b| && a[..cut+1] == b[..cut+1] && Len(a[cut+1..]) == Len(b[cut+1..])
  }

  /** Two arguments that differ only in what must not be kept. */
  predicate SameButSecret(a: string, b: string, lower: Lower) {
    Twins(a, b, lower) || BothCredentials(a, b, lower) || SameButQuery(a, b, lower)
  }

  lemma QueriesRedactAlike(a: string, b: string, lower: Lower)
    requires SameButQuery(a, b, lower)
    ensures RedactArg(a, lower).Some? && RedactArg(a, lower) == RedactArg(b, lower)
  {
    var cut := Find(a, QuestionMark).value;
    assert forall i :: 0 <= i <= cut ==> a[..cut+1][i] == a[i] && b[..cut+1][i] == b[i];
    assert Find(b, QuestionMark) == Some(cut);
    assert a[..cut] == a[..cut+1][..cut] && b[..cut] == b[..cut+1][..cut];
    assert RedactUrl(a, lower) == RedactUrl(b, lower);
  }

  lemma SecretsRedactAlike(a: string, b: string, lower: Lower)
    requires SameButSecret(a, b, lower)
    ensures RedactArg(a, lower).Some? && RedactArg(a, lower) == RedactArg(b, lower)
  {
    if Twins(a, b, lower) {
      TwinsRedactAlike(a, b, lower);
    } else if SameButQuery(a, b, lower) {
      QueriesRedactAlike(a, b, lower);
    }
  }

  lemma FindSame(a: string, b: string)
    requires Find(a, Separator).Some? && |b| > Find(a, Separator).value
    requires a[..Find(a, Separator).value+1] == b[..Find(a, Separator).value+1]
    ensures Find(b, Separator) == Find(a, Separator)
  {
    var pos := Find(a, Separator).value;
    assert forall i :: 0 <= i <= pos ==> a[..pos+1][i] == a[i] && b[..pos+1][i] == b[i];
  }

  lemma TwinsRedactAlike(a: string, b: string, lower: Lower)
    requires Twins(a, b, lower)
    ensures RedactArg(a, lower).Some? && RedactArg(a, lower) == RedactArg(b, lower)
  {
    var pos := Find(a, Separator).value;
    FindSame(a, b);
    assert a[..pos] == a[..pos+1][..pos] && b[..pos] == b[..pos+1][..pos];
    assert a[pos] == a[..pos+1][pos] && b[pos] == b[..pos+1][pos];
  }

  lemma {:induction false} ScanAlike(a: string, b: string)
    requires Alike(a, b)
    ensures var s, t := FeedAll(START, a), FeedAll(START, b);
      AllAlike(s.args, t.args) && Alike(s.cur, t.cur) && s.inQuotes == t.inQuotes
  {
    if a != "" {
      var n := |a| - 1;
      ScanAlike(a[..n], b[..n]);
    }
  }

  lemma SameOutcomes(a: seq<string>, b: seq<string>, redact: Redactor)
    requires |a| == |b|
    requires forall i :: 0 <= i < |a| ==> redact(a[i]) == redact(b[i]) && (a[i] == b[i] || redact(a[i]).Some?)
    ensures KeptAll(a, redact) == KeptAll(b, redact) && AnyRedacted(a, redact) == AnyRedacted(b, redact)
  {
    assert forall i :: 0 <= i < |a| ==> Kept(a[i], redact) == Kept(b[i], redact);
    assert KeptAll(a, redact) == KeptAll(b, redact);
  }

  /** Characters that neither split nor quote do not move the boundaries between arguments. */
  lemma AlikeSplits(a: string, b: string)
    requires Alike(a, b)
    ensures AllAlike(Split(a), Split(b))
  {
    ScanAlike(a, b);
  }

  /** Argument by argument the same, or the same but for what must not be kept. */
  predicate AllSameButSecret(as_: seq<string>, bs: seq<string>, lower: Lower) {
    |as_| == |bs| && forall i :: 0 <= i < |as_| ==> as_[i] == bs[i] || SameButSecret(as_[i], bs[i], lower)
  }

  /**
   Two command lines that differ only in secrets of equal length (values of secret keys, whole
   credentials, query strings) are stored as the same text.
   */
  lemma SecretsDoNotShow(a: string, b: string, lower: Lower)
    requires AllSameButSecret(Split(a), Split(b), lower)
    ensures Redact(a, lower) == Redact(b, lower)
  {
    var as_, bs := Split(a), Split(b);
    var redact := RedactorOf(lower);
    forall i | 0 <= i < |as_| ensures redact(as_[i]) == redact(bs[i]) && (as_[i] == bs[i] || redact(as_[i]).Some?) {
      if as_[i] != bs[i] { SecretsRedactAlike(as_[i], bs[i], lower); }
    }
    SameOutcomes(as_, bs, redact);
  }

  /** The same of two texts that differ only in characters that neither split nor quote. */
  lemma TextsDoNotShow(a: string, b: string, lower: Lower)
    requires Alike(a, b)
    requires forall i :: 0 <= i < |Split(a)| && i < |Split(b)| ==>
               Split(a)[i] == Split(b)[i] || SameButSecret(Split(a)[i], Split(b)[i], lower)
    ensures Redact(a, lower) == Redact(b, lower)
  {
    AlikeSplits(a, b);
    SecretsDoNotShow(a, b, lower);
  }

  /** The same of the arguments a command line is put together from. */
  lemma ArgumentsDoNotShow(as_: seq<string>, bs: seq<string>, lower: Lower)
    requires WellFormed(as_) && WellFormed(bs) && AllSameButSecret(as_, bs, lower)
    ensures Redact(Join(as_), lower) == Redact(Join(bs), lower)
  {
    SplitJoin(as_);
    SplitJoin(bs);
    SecretsDoNotShow(Join(as_), Join(bs), lower);
  }

  /** A secret's length does show: the sentinel records it. */
  lemma LengthShows(name: string, v: string, w: string, lower: Lower)
    requires Find(name, Separator).None? && NamesSecret(name, lower) && v != "" && w != ""
    ensures RedactArg(name + "=" + v, lower) == RedactArg(name + "=" + w, lower) <==> Len(v) == Len(w)
  {
    ValueIs(name, v, lower);
    ValueIs(name, w, lower);
    if RedactArg(name + "=" + v, lower) == RedactArg(name + "=" + w, lower) {
      SentinelInjective(name + "=", Len(v), Len(w));
    }
  }

  lemma FindsSeparator(name: string, v: string)
    requires Find(name, Separator).None?
    ensures Find(name + "=" + v, Separator) == Some(|name|)
  {
    var arg := name + "=" + v;
    assert forall i :: 0 <= i < |name| ==> arg[i] == name[i];
    assert arg[|name|] == '=';
  }

  lemma ValueIs(name: string, v: string, lower: Lower)
    requires Find(name, Separator).None? && NamesSecret(name, lower) && v != ""
    ensures RedactArg(name + "=" + v, lower) == Some(name + "=" + Sentinel(Len(v)))
  {
    var arg := name + "=" + v;
    FindsSeparator(name, v);
    assert arg[..|name|] == name && arg[|name|+1..] == v && arg[|name|] == '=';
    assert RedactKeyValue(arg, lower) == Some(name + "=" + Sentinel(Len(v)));
  }

  lemma SentinelInjective(prefix: string, m: nat, n: nat)
    requires prefix + Sentinel(m) == prefix + Sentinel(n)
    ensures m == n
  {
    assert (prefix + Sentinel(m))[|prefix|..] == Sentinel(m);
    assert (prefix + Sentinel(n))[|prefix|..] == Sentinel(n);
    assert Sentinel(m)[10..|Sentinel(m)|-1] == DecimalNat(m);
    assert Sentinel(n)[10..|Sentinel(n)|-1] == DecimalNat(n);
    DecimalNatInjective(m, n);
  }
}
