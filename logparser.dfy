/**
 * `parse_log(log_file)`: every line of an sshd authentication log is matched
 * against two patterns, tried in order,
 *
 *   (?P<datetime>.*) .* sshd\[\d+\]: User (?P<username>\S+) from (?P<ip_address>\S+) not allowed
 *   (?P<datetime>.*) .* sshd\[\d+\]: Invalid user (?P<username>\S+) from (?P<ip_address>\S+)
 *
 * and the first that matches makes the generator yield an attempt built from
 * `parse_datetime` of the datetime group, the user name and `ip_address` of
 * the address group. A line neither pattern matches is skipped; an exception
 * while building an attempt ends the generator.
 *
 * `re.match` anchors a pattern at the start of the line and backtracks: the
 * first `.*` is tried from its longest length down, and for each length the
 * second `.*` from its longest length down. The rest of each pattern leaves
 * no choice, except the final `\S+` of the second pattern, which takes its
 * longest run. So the match found is the path whose pair (end of the
 * datetime group, start of " sshd[") is largest in lexicographic order.
 */
module LogParser {
  import opened Wrappers
  import opened Text
  import opened Exceptions
  import opened Address
  import opened Timestamp

  /** The two sshd messages that report a refused login, in the order the source tries them. */
  datatype Signature = UserNotAllowed | InvalidUser

  const Signatures: seq<Signature> := [UserNotAllowed, InvalidUser]

  /** The text between "]: " and the user name. */
  function Keyword(sig: Signature): string {
    match sig
    case UserNotAllowed => "User "
    case InvalidUser => "Invalid user "
  }

  /** The text the pattern requires after the address. */
  function Trailer(sig: Signature): string {
    match sig
    case UserNotAllowed => " not allowed"
    case InvalidUser => ""
  }

  /** What follows `lit` in `s`, when `s` starts with `lit`. */
  function After(s: string, lit: string): (r: Option<string>)
    ensures r.Some? <==> StartsWith(s, lit)
    ensures r.Some? ==> s == lit + r.value
  {
    if StartsWith(s, lit) then
      assert s == s[..|lit|] + s[|lit|..];
      Some(s[|lit|..])
    else None
  }

  lemma AfterOf(lit: string, rest: string)
    ensures After(lit + rest, lit) == Some(rest)
  {
    assert (lit + rest)[..|lit|] == lit;
    assert (lit + rest)[|lit|..] == rest;
  }

  /**
   * Fixed text `lit` followed by the longest non-empty run of class `k` (the
   * pattern `lit` then `k+`): the run and what follows it. Where the pattern
   * goes on with text that cannot start with a character of `k`, no shorter
   * run could complete a match, so the longest is the only one.
   */
  function LitRun(t: string, lit: string, k: CharClass): (r: Option<(string, string)>)
    ensures r.Some? ==> |r.value.0| > 0 && All(r.value.0, k)
  {
    if !StartsWith(t, lit) then None
    else
      var (run, rest) := Cut(t[|lit|..], k);
      if run == [] then None else Some((run, rest))
  }

  lemma LitRunOf(lit: string, run: string, rest: string, k: CharClass)
    requires |run| > 0 && All(run, k)
    ensures LitRun(lit + (run + rest), lit, k) == Some((run + Cut(rest, k).0, Cut(rest, k).1))
  {
    var t := lit + (run + rest);
    assert StartsWith(t, lit) && t[|lit|..] == run + rest;
    CutAppend(run, rest, k);
  }

  lemma LitRunSound(t: string, lit: string, k: CharClass)
    requires LitRun(t, lit, k).Some?
    ensures t == lit + (LitRun(t, lit, k).value.0 + LitRun(t, lit, k).value.1)
  {
    CutJoin(t[|lit|..], k);
    assert t == t[..|lit|] + t[|lit|..];
  }

  /** A run followed by nothing, or by a character outside its class, is cut whole. */
  lemma CutNothing(rest: string, k: CharClass)
    requires rest == [] || !In(rest[0], k)
    ensures Cut(rest, k) == ([], rest)
  {
    CutOf([], rest, k);
    assert [] + rest == rest;
  }

  /**
   * The part of a pattern from " sshd[" on, matched at the start of `t`: the
   * user name and the address, or None.
   */
  function MatchSuffix(t: string, sig: Signature): (r: Option<(string, string)>)
    ensures r.Some? ==> |r.value.0| > 0 && All(r.value.0, NonSpace)
    ensures r.Some? ==> |r.value.1| > 0 && All(r.value.1, NonSpace)
  {
    match LitRun(t, " sshd[", Digit)
    case None => None
    case Some((pid, t2)) => MatchFromColon(t2, sig)
  }

  /** The part of a pattern from "]: " on: the keyword, the user name, then the rest as `MatchFrom` reads it. */
  function MatchFromColon(t: string, sig: Signature): (r: Option<(string, string)>)
    ensures r.Some? ==> |r.value.0| > 0 && All(r.value.0, NonSpace)
    ensures r.Some? ==> |r.value.1| > 0 && All(r.value.1, NonSpace)
  {
    match LitRun(t, "]: " + Keyword(sig), NonSpace)
    case None => None
    case Some((user, t4)) =>
      match MatchFrom(t4, sig)
      case None => None
      case Some(addr) => Some((user, addr))
  }

  /** The part of a pattern from " from " on: the address, then the trailer. */
  function MatchFrom(t: string, sig: Signature): (r: Option<string>)
    ensures r.Some? ==> |r.value| > 0 && All(r.value, NonSpace)
  {
    match LitRun(t, " from ", NonSpace)
    case None => None
    case Some((addr, t6)) => if StartsWith(t6, Trailer(sig)) then Some(addr) else None
  }

  /** The text from " from " to the end of a line, laid out as one path through a pattern. */
  function From(sig: Signature, addr: string, rest: string): string {
    " from " + (addr + (Trailer(sig) + rest))
  }

  /** The text from "]: " to the end of a line, laid out as one path through a pattern. */
  function FromColon(sig: Signature, user: string, addr: string, rest: string): string {
    ("]: " + Keyword(sig)) + (user + From(sig, addr, rest))
  }

  /** The text from " sshd[" to the end of a line, laid out as one path through a pattern. */
  function Tail(sig: Signature, pid: string, user: string, addr: string, rest: string): string {
    " sshd[" + (pid + FromColon(sig, user, addr, rest))
  }

  lemma FromOf(sig: Signature, addr: string, rest: string)
    requires |addr| > 0 && All(addr, NonSpace)
    ensures MatchFrom(From(sig, addr, rest), sig) == Some(addr + Cut(Trailer(sig) + rest, NonSpace).0)
    ensures sig == UserNotAllowed || rest == [] || IsSpace(rest[0])
         ==> MatchFrom(From(sig, addr, rest), sig) == Some(addr)
  {
    var t6 := Trailer(sig) + rest;
    var cut := Cut(t6, NonSpace);
    assert LitRun(From(sig, addr, rest), " from ", NonSpace) == Some((addr + cut.0, cut.1)) by {
      LitRunOf(" from ", addr, t6, NonSpace);
    }
    assert StartsWith(cut.1, Trailer(sig)) by {
      if sig == UserNotAllowed {
        CutNothing(t6, NonSpace);
        assert t6[..|Trailer(sig)|] == Trailer(sig);
      }
    }
    if sig == UserNotAllowed || rest == [] || IsSpace(rest[0]) {
      assert t6 == [] || !In(t6[0], NonSpace);
      CutNothing(t6, NonSpace);
      assert addr + cut.0 == addr;
    }
  }

  lemma FromColonOf(sig: Signature, user: string, addr: string, rest: string)
    requires |user| > 0 && All(user, NonSpace)
    requires |addr| > 0 && All(addr, NonSpace)
    ensures MatchFromColon(FromColon(sig, user, addr, rest), sig)
         == Some((user, addr + Cut(Trailer(sig) + rest, NonSpace).0))
    ensures sig == UserNotAllowed || rest == [] || IsSpace(rest[0])
         ==> MatchFromColon(FromColon(sig, user, addr, rest), sig) == Some((user, addr))
  {
    var t4 := From(sig, addr, rest);
    LitRunOf("]: " + Keyword(sig), user, t4, NonSpace);
    CutNothing(t4, NonSpace);
    assert user + [] == user;
    FromOf(sig, addr, rest);
  }

  /**
   * Any text laid out as a path is matched; the address group then also takes
   * the non-blank characters that follow it, which only the second pattern,
   * whose address is its last item, allows.
   */
  lemma SuffixOf(sig: Signature, pid: string, user: string, addr: string, rest: string)
    requires |pid| > 0 && All(pid, Digit)
    requires |user| > 0 && All(user, NonSpace)
    requires |addr| > 0 && All(addr, NonSpace)
    ensures MatchSuffix(Tail(sig, pid, user, addr, rest), sig)
         == Some((user, addr + Cut(Trailer(sig) + rest, NonSpace).0))
    ensures sig == UserNotAllowed || rest == [] || IsSpace(rest[0])
         ==> MatchSuffix(Tail(sig, pid, user, addr, rest), sig) == Some((user, addr))
  {
    var t2 := FromColon(sig, user, addr, rest);
    LitRunOf(" sshd[", pid, t2, Digit);
    CutNothing(t2, Digit);
    assert pid + [] == pid;
    FromColonOf(sig, user, addr, rest);
  }

  lemma FromSound(t: string, sig: Signature) returns (rest: string)
    requires MatchFrom(t, sig).Some?
    ensures t == From(sig, MatchFrom(t, sig).value, rest)
  {
    LitRunSound(t, " from ", NonSpace);
    var t6 := LitRun(t, " from ", NonSpace).value.1;
    rest := t6[|Trailer(sig)|..];
    assert t6 == Trailer(sig) + rest;
  }

  lemma FromColonSound(t: string, sig: Signature) returns (rest: string)
    requires MatchFromColon(t, sig).Some?
    ensures t == FromColon(sig, MatchFromColon(t, sig).value.0, MatchFromColon(t, sig).value.1, rest)
  {
    LitRunSound(t, "]: " + Keyword(sig), NonSpace);
    rest := FromSound(LitRun(t, "]: " + Keyword(sig), NonSpace).value.1, sig);
  }

  /** Whatever `MatchSuffix` accepts is laid out as a path with the groups it returns. */
  lemma SuffixSound(t: string, sig: Signature) returns (pid: string, rest: string)
    requires MatchSuffix(t, sig).Some?
    ensures |pid| > 0 && All(pid, Digit)
    ensures t == Tail(sig, pid, MatchSuffix(t, sig).value.0, MatchSuffix(t, sig).value.1, rest)
  {
    LitRunSound(t, " sshd[", Digit);
    var (p, t2) := LitRun(t, " sshd[", Digit).value;
    pid := p;
    rest := FromColonSound(t2, sig);
  }

  /** The positions of `line` where the part of the pattern of `sig` from " sshd[" on matches. */
  function Anchors(line: string, sig: Signature): set<nat> {
    Positions(line, SuffixMatches(sig), |line| + 1)
  }

  /** Whether the part of the pattern of `sig` from " sshd[" on matches at the start of a text. */
  function SuffixMatches(sig: Signature): string -> bool {
    t => MatchSuffix(t, sig).Some?
  }

  /** The positions below `n` where `accept` holds of the rest of `line`. */
  function Positions(line: string, accept: string -> bool, n: nat): set<nat>
    requires n <= |line| + 1
  {
    if n == 0 then {}
    else (if accept(line[n - 1..]) then {n - 1} else {}) + Positions(line, accept, n - 1)
  }

  lemma {:induction false} PositionsIff(line: string, accept: string -> bool, n: nat, k: int)
    requires n <= |line| + 1
    ensures k in Positions(line, accept, n) <==> 0 <= k < n && accept(line[k..])
  {
    if n > 0 {
      PositionsIff(line, accept, n - 1, k);
    }
  }

  /** `k` is an anchor exactly when the part of the pattern from " sshd[" on matches at `k`. */
  lemma AnchorIff(line: string, sig: Signature, k: int)
    ensures k in Anchors(line, sig) <==> 0 <= k <= |line| && MatchSuffix(line[k..], sig).Some?
  {
    PositionsIff(line, SuffixMatches(sig), |line| + 1, k);
  }

  /**
   * One path through a pattern whose " sshd[" may begin at the positions
   * `anchors`: the datetime group ends at `i`, where a blank stands, and the
   * second `.*` ends at `k`, an anchor. `.` matches anything but a newline.
   */
  predicate PathAt(line: string, anchors: set<nat>, i: int, k: int) {
    && 0 <= i < k <= |line|
    && line[i] == ' '
    && All(line[..i], NotNewline)
    && All(line[i + 1..k], NotNewline)
    && k in anchors
  }

  /** One path through the pattern of `sig`. */
  predicate MatchAt(line: string, sig: Signature, i: int, k: int) {
    PathAt(line, Anchors(line, sig), i, k)
  }

  /** Backtracking over the second `.*` for a datetime group ending at `i`: the largest `k` up to `hi` that completes a path. */
  function ScanMiddle(line: string, anchors: set<nat>, i: nat, hi: nat): (r: Option<nat>)
    requires i < hi <= |line|
    ensures r.Some? ==> i < r.value <= hi && PathAt(line, anchors, i, r.value)
    ensures forall k :: (if r.Some? then r.value else i) < k <= hi ==> !PathAt(line, anchors, i, k)
    decreases hi
  {
    if PathAt(line, anchors, i, hi) then Some(hi)
    else if hi == i + 1 then None
    else ScanMiddle(line, anchors, i, hi - 1)
  }

  /**
   * Backtracking over the first `.*`: the largest datetime end below `n`
   * that has some path, with the largest middle end for it.
   */
  function ScanDatetime(line: string, anchors: set<nat>, n: nat): (r: Option<(nat, nat)>)
    requires n <= |line|
    ensures r.Some? ==> r.value.0 < n && PathAt(line, anchors, r.value.0, r.value.1)
    ensures r.Some? ==> forall k :: r.value.1 < k <= |line| ==> !PathAt(line, anchors, r.value.0, k)
    ensures forall i, k :: (if r.Some? then r.value.0 as int else -1) < i < n ==> !PathAt(line, anchors, i, k)
    decreases n
  {
    if n == 0 then None
    else
      match ScanMiddle(line, anchors, n - 1, |line|)
      case Some(k) => Some((n - 1, k))
      case None => ScanDatetime(line, anchors, n - 1)
  }

  /** The path `re.match` takes for the pattern of `sig`: the largest pair in lexicographic order. */
  function FirstPath(line: string, sig: Signature): (r: Option<(nat, nat)>)
    ensures r.Some? ==> MatchAt(line, sig, r.value.0, r.value.1)
    ensures r.Some? ==> forall i, k :: MatchAt(line, sig, i, k) ==>
      i < r.value.0 || (i == r.value.0 && k <= r.value.1)
    ensures r.None? ==> forall i, k :: !MatchAt(line, sig, i, k)
  {
    ScanDatetime(line, Anchors(line, sig), |line|)
  }

  /** The named groups of a match. */
  datatype Captures = Captures(datetime: string, username: string, address: string)

  /** `re.match(pattern, line)` for the pattern of `sig`: the groups of the path the engine reaches first. */
  function Match(line: string, sig: Signature): (r: Option<Captures>)
    ensures r.Some? ==> All(r.value.datetime, NotNewline)
    ensures r.Some? ==> |r.value.username| > 0 && All(r.value.username, NonSpace)
    ensures r.Some? ==> |r.value.address| > 0 && All(r.value.address, NonSpace)
  {
    match FirstPath(line, sig)
    case None => None
    case Some((i, k)) =>
      AnchorIff(line, sig, k);
      var (user, addr) := MatchSuffix(line[k..], sig).value;
      Some(Captures(line[..i], user, addr))
  }

  /** A pattern matches exactly when some path through it exists. */
  lemma MatchIff(line: string, sig: Signature)
    ensures Match(line, sig).Some? <==> exists i, k :: MatchAt(line, sig, i, k)
  {
  }

  /**
   * `line` is laid out as one path through the pattern of `sig` with groups
   * `c`: the reading of the regular expression that leaves every choice open.
   */
  predicate Shape(line: string, sig: Signature, c: Captures, mid: string, pid: string, rest: string) {
    && line == c.datetime + (" " + (mid + Tail(sig, pid, c.username, c.address, rest)))
    && All(c.datetime, NotNewline) && All(mid, NotNewline)
    && |pid| > 0 && All(pid, Digit)
    && |c.username| > 0 && All(c.username, NonSpace)
    && |c.address| > 0 && All(c.address, NonSpace)
  }

  /** The groups `Match` returns are those of a path through the pattern. */
  lemma MatchSound(line: string, sig: Signature) returns (mid: string, pid: string, rest: string)
    requires Match(line, sig).Some?
    ensures Shape(line, sig, Match(line, sig).value, mid, pid, rest)
  {
    var (i, k) := FirstPath(line, sig).value;
    var t := line[k..];
    AnchorIff(line, sig, k);
    pid, rest := SuffixSound(t, sig);
    mid := line[i + 1..k];
    ThreeCuts(line, i, k);
  }

  /** The pieces of a line laid out as `a`, a blank, `b` and `t`. */
  lemma Layout(line: string, a: string, b: string, t: string)
    requires line == a + (" " + (b + t))
    ensures line[|a|] == ' ' && line[..|a|] == a
    ensures line[|a| + 1..|a| + 1 + |b|] == b && line[|a| + 1 + |b|..] == t
  {
  }

  /** A line cut at a blank `i` and at `k` after it. */
  lemma ThreeCuts(line: string, i: int, k: int)
    requires 0 <= i < k <= |line| && line[i] == ' '
    ensures line == line[..i] + (" " + (line[i + 1..k] + line[k..]))
  {
    assert line[i..k] == [' '] + line[i + 1..k];
    assert line == line[..i] + line[i..k] + line[k..];
  }

  /** Every path is one of the pairs `MatchAt` describes. */
  lemma ShapeMatchAt(line: string, sig: Signature, c: Captures, mid: string, pid: string, rest: string)
    requires Shape(line, sig, c, mid, pid, rest)
    ensures MatchAt(line, sig, |c.datetime|, |c.datetime| + 1 + |mid|)
  {
    var i, k := |c.datetime|, |c.datetime| + 1 + |mid|;
    var t := Tail(sig, pid, c.username, c.address, rest);
    assert k in Anchors(line, sig) by {
      assert line[k..] == t by {
        Layout(line, c.datetime, mid, t);
      }
      SuffixOf(sig, pid, c.username, c.address, rest);
      AnchorIff(line, sig, k);
    }
    PathOf(line, Anchors(line, sig), c.datetime, mid, t);
  }

  lemma PathOf(line: string, anchors: set<nat>, datetime: string, mid: string, t: string)
    requires line == datetime + (" " + (mid + t))
    requires All(datetime, NotNewline) && All(mid, NotNewline)
    requires |datetime| + 1 + |mid| in anchors
    ensures PathAt(line, anchors, |datetime|, |datetime| + 1 + |mid|)
  {
    Layout(line, datetime, mid, t);
  }

  /** A path that comes first in the engine's order is the one it takes. */
  lemma FirstPathOf(line: string, sig: Signature, c: Captures, mid: string, pid: string, rest: string, k: nat)
    requires Shape(line, sig, c, mid, pid, rest)
    requires forall i, k :: MatchAt(line, sig, i, k) ==>
      i < |c.datetime| || (i == |c.datetime| && k <= |c.datetime| + 1 + |mid|)
    requires k == |c.datetime| + 1 + |mid|
    ensures FirstPath(line, sig) == Some((|c.datetime|, k))
  {
    var i := |c.datetime|;
    ShapeMatchAt(line, sig, c, mid, pid, rest);
    var anchors := Anchors(line, sig);
    forall i', k' | PathAt(line, anchors, i', k') ensures i' < i || (i' == i && k' <= k) {
      assert MatchAt(line, sig, i', k');
    }
    ScanExact(line, anchors, i, k);
  }

  /** The groups of the path the engine takes. */
  lemma MatchFromPath(line: string, sig: Signature, i: nat, k: nat, c: Captures)
    requires FirstPath(line, sig) == Some((i, k))
    requires line[..i] == c.datetime && MatchSuffix(line[k..], sig) == Some((c.username, c.address))
    ensures Match(line, sig) == Some(c)
  {
  }

  /** The scan finds the path that comes first in the engine's order. */
  lemma ScanExact(line: string, anchors: set<nat>, i: int, k: int)
    requires PathAt(line, anchors, i, k)
    requires forall i', k' :: PathAt(line, anchors, i', k') ==> i' < i || (i' == i && k' <= k)
    ensures ScanDatetime(line, anchors, |line|) == Some((i, k))
  {
    var r := ScanDatetime(line, anchors, |line|);
    assert r.Some?;
    assert PathAt(line, anchors, r.value.0, r.value.1);
  }

  /** A line without the text " sshd[" matches neither pattern. */
  lemma NoDaemonNoMatch(line: string, sig: Signature)
    requires forall k :: 0 <= k <= |line| ==> !StartsWith(line[k..], " sshd[")
    ensures Match(line, sig).None?
  {
    forall i, k | 0 <= i < k <= |line| ensures !MatchAt(line, sig, i, k) {
      AnchorIff(line, sig, k);
    }
  }

  /** The inner loop of the source: the groups of the first signature in `sigs` whose pattern matches. */
  function FirstOf(line: string, sigs: seq<Signature>): (r: Option<Captures>)
    ensures r.None? <==> forall j :: 0 <= j < |sigs| ==> Match(line, sigs[j]).None?
    ensures r.Some? ==>
      exists j :: 0 <= j < |sigs| && Match(line, sigs[j]) == r && forall j' :: 0 <= j' < j ==> Match(line, sigs[j']).None?
  {
    var ms := MapSeq(MatchOf(line), sigs);
    assert forall j :: 0 <= j < |sigs| ==> ms[j] == Match(line, sigs[j]);
    FirstSome(ms)
  }

  /** `Match` against the line `line`, as a function of the pattern. */
  function MatchOf(line: string): Signature -> Option<Captures> {
    sig => Match(line, sig)
  }

  /** The first present element of `ms`, if any. */
  function FirstSome<T>(ms: seq<Option<T>>): (r: Option<T>)
    ensures r.None? <==> forall j :: 0 <= j < |ms| ==> ms[j].None?
    ensures r.Some? ==> exists j :: 0 <= j < |ms| && ms[j] == r && forall j' :: 0 <= j' < j ==> ms[j'].None?
  {
    if ms == [] then None
    else if ms[0].Some? then ms[0]
    else
      var r := FirstSome(ms[1..]);
      assert forall j :: 1 <= j < |ms| ==> ms[j] == ms[1..][j - 1];
      r
  }

  /** An attempt to log in: when, as whom, and from which address. */
  datatype Attempt = Attempt(time: DateTime, username: string, address: Addr)

  /** What every yielded attempt satisfies, for the year the log is read in. */
  predicate WellFormed(a: Attempt, year: int) {
    && a.time.year == year && ValidDateTime(a.time)
    && |a.username| > 0 && All(a.username, NonSpace)
    && a.address.Valid()
  }

  /** What one line contributes: nothing, one attempt, or the exception that ends the generator. */
  datatype Step = Skip | Emit(attempt: Attempt) | Raise(error: Exception)

  /**
   * The body of the outer loop for one line. The arguments of `Attempt(...)`
   * are evaluated in order, so a bad datetime is reported before a bad
   * address.
   */
  function ParseLine(line: string, year: int): (r: Step)
    ensures r.Skip? <==> forall j :: 0 <= j < |Signatures| ==> Match(line, Signatures[j]).None?
    ensures r.Emit? ==> WellFormed(r.attempt, year)
    ensures r.Raise? ==> r.error in {AttributeError, ValueError}
  {
    match FirstOf(line, Signatures)
    case None => Skip
    case Some(c) => StepOf(c, year)
  }

  /**
   * `Attempt(parse_datetime(...), username, ip_address(...))` from the groups
   * `c`: the user name kept as it is, the address required to parse (a bad
   * one raises, the line is not skipped), and a bad datetime reported first.
   */
  function StepOf(c: Captures, year: int): (r: Step)
    ensures r.Emit? <==> ParseTimestamp(c.datetime, year).Ok? && ParseAddr(c.address).Some?
    ensures r.Emit? ==>
      (r.attempt.time == ParseTimestamp(c.datetime, year).value
       && r.attempt.username == c.username && Some(r.attempt.address) == ParseAddr(c.address))
    ensures ParseTimestamp(c.datetime, year).Err? ==> r == Raise(ParseTimestamp(c.datetime, year).error)
    ensures ParseTimestamp(c.datetime, year).Ok? && ParseAddr(c.address).None? ==> r == Raise(ValueError)
  {
    match ParseTimestamp(c.datetime, year)
    case Err(e) => Raise(e)
    case Ok(t) =>
      match ParseAddr(c.address)
      case None => Raise(ValueError)
      case Some(a) => Emit(Attempt(t, c.username, a))
  }

  /**
   * The signatures are tried in order: a line the first pattern matches is
   * read by it, whatever the second would give; the second is used only when
   * the first does not match.
   */
  lemma FirstSignatureWins(line: string, year: int)
    ensures Match(line, UserNotAllowed).Some? ==> ParseLine(line, year) == StepOf(Match(line, UserNotAllowed).value, year)
    ensures Match(line, UserNotAllowed).None? && Match(line, InvalidUser).Some? ==>
      ParseLine(line, year) == StepOf(Match(line, InvalidUser).value, year)
  {
    var ms := MapSeq(MatchOf(line), Signatures);
    assert ms == [Match(line, UserNotAllowed), Match(line, InvalidUser)];
    FirstSomePair(ms);
  }

  lemma FirstSomePair<T>(ms: seq<Option<T>>)
    requires |ms| == 2
    ensures FirstSome(ms) == if ms[0].Some? then ms[0] else ms[1]
  {
    assert ms[1..][1..] == [];
  }

  /** What iterating over the generator gives: the attempts yielded, and the exception raised, if any. */
  datatype LogOutcome = LogOutcome(attempts: seq<Attempt>, error: Option<Exception>)

  /** The outcome of the lines after `prefix` was yielded. */
  function Then(prefix: seq<Attempt>, o: LogOutcome): LogOutcome {
    LogOutcome(prefix + o.attempts, o.error)
  }

  /** The outcome of a line's step followed by the outcome `o` of the lines after it. */
  function Next(step: Step, o: LogOutcome): LogOutcome {
    match step
    case Skip => o
    case Emit(a) => Then([a], o)
    case Raise(e) => LogOutcome([], Some(e))
  }

  /** The generator over a sequence of steps: the attempts emitted until the first exception. */
  function Run(steps: seq<Step>): (r: LogOutcome)
    ensures |r.attempts| <= |steps|
    ensures forall a :: a in r.attempts ==> Emit(a) in steps
    ensures r.error.Some? ==> Raise(r.error.value) in steps
  {
    if steps == [] then LogOutcome([], None) else Next(steps[0], Run(steps[1..]))
  }

  /** The steps of the lines of a log, read in the year `year`. */
  function Steps(lines: seq<string>, year: int): (s: seq<Step>)
    ensures |s| == |lines|
  {
    MapSeq(LineReader(year), lines)
  }

  /** `ParseLine` for the year `year`, as a function of the line. */
  function LineReader(year: int): string -> Step {
    line => ParseLine(line, year)
  }

  /** `f` applied to each element of `xs`. */
  function MapSeq<A, B>(f: A -> B, xs: seq<A>): (ys: seq<B>)
    ensures |ys| == |xs| && forall n :: 0 <= n < |xs| ==> ys[n] == f(xs[n])
  {
    seq(|xs|, n requires 0 <= n < |xs| => f(xs[n]))
  }

  lemma MapAppend<A, B>(f: A -> B, a: seq<A>, b: seq<A>)
    ensures MapSeq(f, a + b) == MapSeq(f, a) + MapSeq(f, b)
  {
    forall n | 0 <= n < |a| + |b|
      ensures MapSeq(f, a + b)[n] == (MapSeq(f, a) + MapSeq(f, b))[n]
    {
      if n < |a| {
        assert (a + b)[n] == a[n];
      } else {
        assert (a + b)[n] == b[n - |a|];
      }
    }
  }

  lemma MapPrefix<A, B>(f: A -> B, xs: seq<A>, n: nat)
    requires n <= |xs|
    ensures MapSeq(f, xs)[..n] == MapSeq(f, xs[..n])
  {
  }

  /** The generator `parse_log` over the decoded lines of a log, read in the year `year`. */
  function ParseLogSpec(lines: seq<string>, year: int): (r: LogOutcome)
    ensures |r.attempts| <= |lines|
  {
    Run(Steps(lines, year))
  }

  /** The run from step `n` on: the step at `n`, then the run after it. */
  lemma RunFrom(steps: seq<Step>, n: nat)
    requires n < |steps|
    ensures Run(steps[n..]) == Next(steps[n], Run(steps[n + 1..]))
  {
    assert steps[n..][1..] == steps[n + 1..];
  }

  /**
   * The inner loop of the source for one line: the patterns are tried in
   * order, and the first that matches decides the step.
   */
  method LineStep(line: string, year: int) returns (step: Step)
    ensures step == ParseLine(line, year)
  {
    var j := 0;
    while j < |Signatures|
      invariant j <= |Signatures|
      invariant FirstOf(line, Signatures) == FirstOf(line, Signatures[j..])
    {
      var m := Match(line, Signatures[j]);
      if m.Some? {
        var c := m.value;
        var t := ParseTimestamp(c.datetime, year);
        if t.Err? {
          return Raise(t.error);
        }
        var a := ParseAddr(c.address);
        if a.None? {
          return Raise(ValueError);
        }
        return Emit(Attempt(t.value, c.username, a.value));
      }
      assert Signatures[j..][1..] == Signatures[j + 1..];
      j := j + 1;
    }
    return Skip;
  }

  /**
   * `list(parse_log(lines))`, written as the source's outer loop: the
   * attempts yielded, and the exception that ended the iteration early.
   */
  method ParseLog(lines: seq<string>, year: int) returns (attempts: seq<Attempt>, error: Option<Exception>)
    ensures LogOutcome(attempts, error) == ParseLogSpec(lines, year)
  {
    attempts, error := [], None;
    ghost var steps := Steps(lines, year);
    var n := 0;
    assert steps[0..] == steps;
    while n < |lines|
      invariant n <= |lines|
      invariant Run(steps) == Then(attempts, Run(steps[n..]))
    {
      var step := LineStep(lines[n], year);
      assert step == steps[n];
      RunFrom(steps, n);
      ThenNext(attempts, step, Run(steps[n + 1..]));
      match step {
        case Skip =>
        case Emit(x) =>
          attempts := attempts + [x];
        case Raise(e) =>
          error := Some(e);
          return;
      }
      n := n + 1;
    }
    ThenNothing(attempts);
  }

  /** Yielding after `prefix` the outcome of one more step. */
  lemma ThenNext(prefix: seq<Attempt>, step: Step, o: LogOutcome)
    ensures step.Skip? ==> Then(prefix, Next(step, o)) == Then(prefix, o)
    ensures step.Emit? ==> Then(prefix, Next(step, o)) == Then(prefix + [step.attempt], o)
    ensures step.Raise? ==> Then(prefix, Next(step, o)) == LogOutcome(prefix, Some(step.error))
  {
    if step.Emit? {
      assert (prefix + [step.attempt]) + o.attempts == prefix + ([step.attempt] + o.attempts);
    } else if step.Raise? {
      assert prefix + [] == prefix;
    }
  }

  lemma ThenNothing(prefix: seq<Attempt>)
    ensures Then(prefix, Run([])) == LogOutcome(prefix, None)
  {
    assert prefix + [] == prefix;
  }

  /** Every attempt yielded is well formed, and the only exceptions are those of a line's datetime or address. */
  lemma YieldedWellFormed(lines: seq<string>, year: int)
    ensures forall a :: a in ParseLogSpec(lines, year).attempts ==> WellFormed(a, year)
    ensures ParseLogSpec(lines, year).error.Some? ==> ParseLogSpec(lines, year).error.value in {AttributeError, ValueError}
  {
    var steps := Steps(lines, year);
    forall a | a in Run(steps).attempts ensures WellFormed(a, year) {
      var n :| 0 <= n < |steps| && steps[n] == Emit(a);
      StepWellFormed(lines, year, n);
    }
    if Run(steps).error.Some? {
      var n :| 0 <= n < |steps| && steps[n] == Raise(Run(steps).error.value);
      StepWellFormed(lines, year, n);
    }
  }

  /** The step of one line yields a well-formed attempt or raises AttributeError or ValueError. */
  lemma StepWellFormed(lines: seq<string>, year: int, n: nat)
    requires n < |lines|
    ensures Steps(lines, year)[n].Emit? ==> WellFormed(Steps(lines, year)[n].attempt, year)
    ensures Steps(lines, year)[n].Raise? ==> Steps(lines, year)[n].error in {AttributeError, ValueError}
  {
    assert Steps(lines, year)[n] == ParseLine(lines[n], year);
  }

  lemma {:induction false} RunAppend(s1: seq<Step>, s2: seq<Step>)
    ensures Run(s1 + s2) ==
      if Run(s1).error.Some? then Run(s1) else Then(Run(s1).attempts, Run(s2))
  {
    if s1 == [] {
      assert s1 + s2 == s2;
    } else {
      assert (s1 + s2)[0] == s1[0] && (s1 + s2)[1..] == s1[1..] + s2;
      RunAppend(s1[1..], s2);
      if s1[0].Emit? {
        var o := Run(s1[1..]);
        if o.error.None? {
          assert [s1[0].attempt] + (o.attempts + Run(s2).attempts)
            == ([s1[0].attempt] + o.attempts) + Run(s2).attempts;
        }
      }
    }
  }

  lemma StepsAppend(a: seq<string>, b: seq<string>, year: int)
    ensures Steps(a + b, year) == Steps(a, year) + Steps(b, year)
  {
    MapAppend(LineReader(year), a, b);
  }

  /** Reading a log in two pieces: the second piece is read only when the first raised nothing. */
  lemma ParseLogAppend(a: seq<string>, b: seq<string>, year: int)
    ensures ParseLogSpec(a + b, year) ==
      if ParseLogSpec(a, year).error.Some? then ParseLogSpec(a, year)
      else Then(ParseLogSpec(a, year).attempts, ParseLogSpec(b, year))
  {
    StepsAppend(a, b, year);
    RunAppend(Steps(a, year), Steps(b, year));
  }

  /** The number of steps that are not `Skip`. */
  function CountActive(steps: seq<Step>): (n: nat)
    ensures n <= |steps|
  {
    if steps == [] then 0 else (if steps[0].Skip? then 0 else 1) + CountActive(steps[1..])
  }

  /**
   * One attempt per active step: with no exception, as many attempts as
   * active steps; with one, as many as active steps before the first step
   * that raises, which is the one that raised it.
   */
  lemma {:induction false} RunCount(steps: seq<Step>)
    ensures Run(steps).error.None? ==> |Run(steps).attempts| == CountActive(steps)
    ensures Run(steps).error.Some? ==>
      exists n :: 0 <= n < |steps| && steps[n] == Raise(Run(steps).error.value)
        && (forall m :: 0 <= m < n ==> !steps[m].Raise?)
        && |Run(steps).attempts| == CountActive(steps[..n])
  {
    if steps != [] {
      var rest := Run(steps[1..]);
      RunCount(steps[1..]);
      assert Run(steps) == Next(steps[0], rest);
      if steps[0].Raise? {
        assert steps[..0] == [];
      } else if Run(steps).error.Some? {
        var e := Run(steps).error.value;
        assert rest.error == Some(e);
        var n :| 0 <= n < |steps[1..]| && steps[1..][n] == Raise(e)
          && (forall m :: 0 <= m < n ==> !steps[1..][m].Raise?)
          && |rest.attempts| == CountActive(steps[1..][..n]);
        CountActiveShift(steps, n);
        assert |Run(steps).attempts| == (if steps[0].Skip? then 0 else 1) + |rest.attempts|;
        assert steps[n + 1] == Raise(e);
      }
    }
  }

  /** The first `n + 1` steps, seen from the second one: a step that does not raise, then the first `n` of the rest. */
  lemma CountActiveShift(steps: seq<Step>, n: nat)
    requires n < |steps| - 1 && !steps[0].Raise?
    requires forall m :: 0 <= m < n ==> !steps[1..][m].Raise?
    ensures CountActive(steps[..n + 1]) == (if steps[0].Skip? then 0 else 1) + CountActive(steps[1..][..n])
    ensures forall m :: 0 <= m < n + 1 ==> !steps[m].Raise?
  {
    assert steps[..n + 1][1..] == steps[1..][..n];
    assert forall m :: 1 <= m < n + 1 ==> steps[m] == steps[1..][m - 1];
  }

  /**
   * The number of lines one of the two patterns matches: by the contract of
   * `ParseLine`, those whose step is not `Skip`.
   */
  function CountMatching(lines: seq<string>, year: int): nat {
    CountActive(Steps(lines, year))
  }

  /**
   * One attempt per matching line: with no exception, as many attempts as
   * lines that match; with one, as many as matching lines before the first
   * line that raises, which is the line that raised it.
   */
  lemma AttemptsPerMatchingLine(lines: seq<string>, year: int)
    ensures ParseLogSpec(lines, year).error.None? ==>
      |ParseLogSpec(lines, year).attempts| == CountMatching(lines, year)
    ensures ParseLogSpec(lines, year).error.Some? ==>
      exists n :: 0 <= n < |lines| && ParseLine(lines[n], year) == Raise(ParseLogSpec(lines, year).error.value)
        && (forall m :: 0 <= m < n ==> !ParseLine(lines[m], year).Raise?)
        && |ParseLogSpec(lines, year).attempts| == CountMatching(lines[..n], year)
  {
    var steps := Steps(lines, year);
    RunCount(steps);
    if Run(steps).error.Some? {
      var n :| 0 <= n < |steps| && steps[n] == Raise(Run(steps).error.value)
        && (forall m :: 0 <= m < n ==> !steps[m].Raise?)
        && |Run(steps).attempts| == CountActive(steps[..n]);
      StepsPrefix(lines, year, n);
      NoRaiseBefore(lines, year, n);
      var spec := ParseLogSpec(lines, year);
      assert spec == Run(steps);
      assert ParseLine(lines[n], year) == Raise(spec.error.value);
      assert |spec.attempts| == CountMatching(lines[..n], year);
    }
  }

  /** No step before `n` raises exactly when no line before `n` raises. */
  lemma NoRaiseBefore(lines: seq<string>, year: int, n: nat)
    requires n <= |lines|
    requires forall m :: 0 <= m < n ==> !Steps(lines, year)[m].Raise?
    ensures forall m :: 0 <= m < n ==> !ParseLine(lines[m], year).Raise?
  {
    forall m | 0 <= m < n
      ensures !ParseLine(lines[m], year).Raise?
    {
      StepsPrefix(lines, year, m);
    }
  }

  lemma StepsPrefix(lines: seq<string>, year: int, n: nat)
    requires n < |lines|
    ensures Steps(lines, year)[..n] == Steps(lines[..n], year)
    ensures Steps(lines, year)[n] == ParseLine(lines[n], year)
  {
    MapPrefix(LineReader(year), lines, n);
  }
}
