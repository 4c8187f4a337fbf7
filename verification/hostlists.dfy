/**
 Hostlist expansion, `expand_hostlist` of the Slurm/Flux adapter: `node[01-03,7],gpu[1-2]x[3-4]`.

 The functions follow the code on every string. Beside them stands a syntax of hostlists, with ranges of
 any digits and hyphens, and its own meaning: the lexicographic Cartesian product of its ranges, or a
 failure.
 */
module Hostlists {
  import opened Wrappers

  // ---- strings -------------------------------------------------------------

  predicate IsDigit(c: char) { '0' <= c <= '9' }

  /** What `str.strip` removes. */
  predicate IsSpace(c: char) {
    var n := c as int;
    || n == 0x20 || 0x09 <= n <= 0x0d || 0x1c <= n <= 0x1f || n == 0x85 || n == 0xa0 || n == 0x1680
    || 0x2000 <= n <= 0x200a || n == 0x2028 || n == 0x2029 || n == 0x202f || n == 0x205f || n == 0x3000
  }

  predicate AllDigits(s: string) { forall c <- s :: IsDigit(c) }

  function Brackets(s: string): nat {
    if s == "" then 0 else (if s[0] == '[' then 1 else 0) + Brackets(s[1..])
  }

  lemma {:induction false} BracketsConcat(a: string, b: string)
    ensures Brackets(a + b) == Brackets(a) + Brackets(b)
  {
    if a == "" {
      assert a + b == b;
    } else {
      assert (a + b)[1..] == a[1..] + b;
      BracketsConcat(a[1..], b);
    }
  }

  lemma {:induction false} NoBrackets(s: string)
    ensures Brackets(s) == 0 <==> '[' !in s
  {
    if s != "" {
      NoBrackets(s[1..]);
      assert s == [s[0]] + s[1..];
    }
  }

  function TrimLeft(s: string): (r: string)
    ensures Brackets(r) == Brackets(s)
    ensures (forall c <- s :: !IsSpace(c)) ==> r == s
  {
    if s != "" && IsSpace(s[0]) then TrimLeft(s[1..]) else s
  }

  function TrimRight(s: string): (r: string)
    ensures Brackets(r) == Brackets(s)
    ensures (forall c <- s :: !IsSpace(c)) ==> r == s
  {
    if s != "" && IsSpace(s[|s| - 1]) then
      BracketsConcat(s[..|s| - 1], s[|s| - 1..]);
      assert s == s[..|s| - 1] + s[|s| - 1..];
      TrimRight(s[..|s| - 1])
    else s
  }

  function Strip(s: string): string { TrimRight(TrimLeft(s)) }

  predicate Blank(s: string) { forall c <- s :: IsSpace(c) }

  /** Neither end is white space. */
  predicate Tidy(s: string) { s == "" || (!IsSpace(s[0]) && !IsSpace(s[|s| - 1])) }

  lemma {:induction false} TrimLeftSkips(a: string, s: string)
    requires Blank(a) && (s == "" || !IsSpace(s[0]))
    ensures TrimLeft(a + s) == s
  {
    if a == "" {
      assert a + s == s;
    } else {
      assert a[0] in a && (a + s)[1..] == a[1..] + s;
      TrimLeftSkips(a[1..], s);
    }
  }

  lemma {:induction false} TrimRightSkips(s: string, b: string)
    requires Blank(b) && (s == "" || !IsSpace(s[|s| - 1]))
    ensures TrimRight(s + b) == s
  {
    if b == "" {
      assert s + b == s;
    } else {
      var init := b[..|b| - 1];
      assert b[|b| - 1] in b && (s + b)[..|s + b| - 1] == s + init;
      TrimRightSkips(s, init);
    }
  }

  /** Stripping takes off the white space at both ends, and no more. */
  lemma StripIs(a: string, s: string, b: string)
    requires Blank(a) && Blank(b) && Tidy(s)
    ensures Strip(a + s + b) == s
  {
    if s == "" {
      assert a + s + b == (a + b) + "" && Blank(a + b);
      TrimLeftSkips(a + b, "");
    } else {
      assert a + s + b == a + (s + b) && (s + b)[0] == s[0];
      TrimLeftSkips(a, s + b);
      TrimRightSkips(s, b);
    }
  }

  lemma {:induction false} BlankHasNoBrackets(s: string)
    requires Blank(s)
    ensures Brackets(s) == 0
  {
    if s != "" {
      assert s[0] in s;
      BlankHasNoBrackets(s[1..]);
    }
  }

  /** The white space there is. */
  lemma IsSpaceIff(c: char)
    ensures IsSpace(c) <==>
            c as int in {0x9, 0xa, 0xb, 0xc, 0xd, 0x1c, 0x1d, 0x1e, 0x1f, 0x20, 0x85, 0xa0, 0x1680, 0x2000, 0x2001,
                         0x2002, 0x2003, 0x2004, 0x2005, 0x2006, 0x2007, 0x2008, 0x2009, 0x200a, 0x2028, 0x2029,
                         0x202f, 0x205f, 0x3000}
  {
  }

  /** `s.split(c)`. */
  function SplitOn(s: string, c: char): (r: seq<string>)
    ensures r != []
  {
    if s == "" then [""]
    else
      var rest := SplitOn(s[1..], c);
      if s[0] == c then [""] + rest else [[s[0]] + rest[0]] + rest[1..]
  }

  function Join(parts: seq<string>): string {
    if parts == [] then ""
    else if |parts| == 1 then parts[0]
    else parts[0] + "," + Join(parts[1..])
  }

  // ---- numerals ------------------------------------------------------------

  function Value(s: string): nat
    requires AllDigits(s)
  {
    if s == "" then 0
    else
      assert IsDigit(s[|s| - 1]);
      10 * Value(s[..|s| - 1]) + (s[|s| - 1] as int - '0' as int)
  }

  function Decimal(n: nat): (s: string)
    ensures s != "" && AllDigits(s) && Value(s) == n
  {
    if n < 10 then
      var d := ['0' + n as char];
      assert d[..0] == "";
      d
    else
      var s := Decimal(n / 10) + ['0' + (n % 10) as char];
      assert s[..|s| - 1] == Decimal(n / 10);
      s
  }

  lemma {:induction false} LeadingZero(s: string)
    requires AllDigits(s)
    ensures AllDigits("0" + s) && Value("0" + s) == Value(s)
  {
    var z := "0" + s;
    if s != "" {
      LeadingZero(s[..|s| - 1]);
      assert z[..|z| - 1] == "0" + s[..|s| - 1];
    } else {
      assert z == "0" && z[..0] == "";
    }
  }

  /** `str.zfill`: same number, at least `width` characters, and not one more than needed. */
  function Zfill(s: string, width: nat): (r: string)
    requires AllDigits(s)
    ensures AllDigits(r) && Value(r) == Value(s)
    ensures |r| == if |s| < width then width else |s|
    decreases width - |s|
  {
    if |s| < width then
      LeadingZero(s);
      Zfill("0" + s, width)
    else s
  }

  /** The most digits `int` reads. */
  const MAX_DIGITS := 4300

  /** Python's `int` on a string of digits and hyphens. */
  function ParseInt(s: string): (r: Option<int>)
    ensures r.Some? && '-' !in s ==> r.value >= 0
  {
    if 0 < |s| <= MAX_DIGITS && AllDigits(s) then Some(Value(s))
    else if 1 < |s| <= MAX_DIGITS + 1 && s[0] == '-' && AllDigits(s[1..]) then Some(0 - Value(s[1..]))
    else None
  }

  /** `lo`, `lo + 1`, ... `hi`, each zero-filled to `width`; empty when `lo > hi`. */
  function Counting(lo: nat, hi: int, width: nat): (r: seq<string>)
    ensures |r| == if lo <= hi then hi - lo + 1 else 0
    ensures forall i | 0 <= i < |r| :: r[i] == Zfill(Decimal(lo + i), width)
    decreases hi - lo
  {
    if lo > hi then [] else [Zfill(Decimal(lo), width)] + Counting(lo + 1, hi, width)
  }

  // ---- the expansion, on every string --------------------------------------

  /** `int` raised on a malformed range. */
  datatype Failure = BadNumber

  type Hosts = Result<seq<string>, Failure>

  /** Split on commas outside brackets; an empty last piece is dropped. */
  function SplitTop(s: string, depth: int, buf: string): seq<string> {
    if s == "" then (if buf != "" then [buf] else [])
    else
      var depth' := if s[0] == '[' then depth + 1 else if s[0] == ']' then depth - 1 else depth;
      if s[0] == ',' && depth' == 0 then [buf] + SplitTop(s[1..], depth', "")
      else SplitTop(s[1..], depth', buf + [s[0]])
  }

  predicate InGroup(c: char) { IsDigit(c) || c == ',' || c == '-' }

  /** How many characters of a group `s` begins with. */
  function GroupRun(s: string): (n: nat)
    ensures n <= |s|
  {
    if s != "" && InGroup(s[0]) then 1 + GroupRun(s[1..]) else 0
  }

  lemma {:induction false} RunIsInGroup(s: string)
    ensures forall c <- s[..GroupRun(s)] :: InGroup(c)
  {
    if s != "" && InGroup(s[0]) {
      RunIsInGroup(s[1..]);
      assert s[..GroupRun(s)] == [s[0]] + s[1..][..GroupRun(s[1..])];
    }
  }

  /** The leftmost bracket group of digits, commas and hyphens at or after `i`: its `[`, and its length. */
  function FindGroup(s: string, i: nat): (r: Option<(nat, nat)>)
    requires i <= |s|
    ensures r.Some? ==> 0 < r.value.1 && r.value.0 + r.value.1 + 1 < |s|
    decreases |s| - i
  {
    if i == |s| then None
    else if GroupStarts(s, i) then Some((i, GroupRun(s[i + 1..])))
    else FindGroup(s, i + 1)
  }

  predicate GroupStarts(s: string, i: nat)
    requires i < |s|
  {
    s[i] == '[' &&
    var n := GroupRun(s[i + 1..]);
    n > 0 && i + 1 + n < |s| && s[i + 1 + n] == ']'
  }

  lemma {:induction false} GroupFound(s: string, i: nat)
    requires i <= |s| && FindGroup(s, i).Some?
    ensures var (at, n) := FindGroup(s, i).value;
            i <= at && s[at] == '[' && forall c <- s[at + 1..at + n + 1] :: InGroup(c)
    decreases |s| - i
  {
    if GroupStarts(s, i) {
      RunIsInGroup(s[i + 1..]);
      assert s[i + 1..][..GroupRun(s[i + 1..])] == s[i + 1..i + 1 + GroupRun(s[i + 1..])];
    } else {
      GroupFound(s, i + 1);
    }
  }

  function IndexOf(s: string, c: char): (i: nat)
    requires c in s
    ensures i < |s| && s[i] == c && c !in s[..i]
  {
    if s[0] == c then 0 else 1 + IndexOf(s[1..], c)
  }

  /** The names one comma-separated piece of a group stands for; `split("-", 1)` cuts at the first
      hyphen. */
  function RangeNames(rng: string): Result<seq<string>, Failure> {
    if '-' in rng then
      var cut := IndexOf(rng, '-');
      var lo, hi := ParseInt(rng[..cut]), ParseInt(rng[cut + 1..]);
      if lo.None? || hi.None? then Err(BadNumber) else Ok(Counting(lo.value, hi.value, cut))
    else Ok([rng])
  }

  function AllNames(ranges: seq<string>): Result<seq<string>, Failure> {
    if ranges == [] then Ok([])
    else Then(RangeNames(ranges[0]), AllNames(ranges[1..]))
  }

  /** One result after another: the first failure wins, otherwise the lists are appended. */
  function Then(a: Hosts, b: Hosts): Hosts {
    if a.Err? then a else if b.Err? then b else Ok(a.value + b.value)
  }

  predicate Reserved(s: string) { s == "" || s == "(null)" || s == "None" }

  function Expand(spec: string): Hosts
    decreases Brackets(spec), 4
  {
    var s := Strip(spec);
    if Reserved(s) then Ok([])
    else
      SplitTopBrackets(s, 0, "");
      ExpandParts(SplitTop(s, 0, ""), Brackets(spec))
  }

  function ExpandParts(parts: seq<string>, bound: nat): Hosts
    requires forall p <- parts :: Brackets(p) <= bound
    decreases bound, 3, |parts|
  {
    if parts == [] then Ok([]) else Then(ExpandPart(parts[0]), ExpandParts(parts[1..], bound))
  }

  /** Brackets fall from a piece to what surrounds its first group, and the group has none. */
  lemma GroupIs(part: string, at: nat, n: nat)
    requires FindGroup(part, 0) == Some((at, n))
    ensures Brackets(part[..at]) + Brackets(part[at + n + 2..]) < Brackets(part)
    ensures forall c <- part[at + 1..at + n + 1] :: InGroup(c)
  {
    GroupFound(part, 0);
    GroupBrackets(part, at, n);
  }

  /** The names between one pair of brackets. */
  function BodyNames(body: string): Hosts { AllNames(SplitOn(body, ',')) }

  lemma PiecesHaveNoBrackets(body: string)
    requires forall c <- body :: InGroup(c)
    ensures forall r <- SplitOn(body, ','), x <- r :: x != '['
  {
    SplitOnPieces(body, ',');
  }

  lemma BodyHasNoBrackets(body: string)
    requires forall c <- body :: InGroup(c)
    ensures BodyNames(body).Ok? ==> forall x <- BodyNames(body).value :: Brackets(x) == 0
  {
    PiecesHaveNoBrackets(body);
    NamesHaveNoBrackets(SplitOn(body, ','));
  }

  /** One piece: without a group it is a name; otherwise every name of the group is put in its place,
      and what follows is expanded again when it holds another bracket. */
  function ExpandPart(part: string): Hosts
    decreases Brackets(part), 2
  {
    var found := FindGroup(part, 0);
    if found.None? then Ok([part])
    else
      var (at, n) := found.value;
      GroupIs(part, at, n);
      BodyHasNoBrackets(part[at + 1..at + n + 1]);
      Emit(part[..at], BodyNames(part[at + 1..at + n + 1]), part[at + n + 2..], Brackets(part))
  }

  function Emit(prefix: string, names: Hosts, suffix: string, bound: nat): Hosts
    requires Brackets(prefix) + Brackets(suffix) < bound
    requires names.Ok? ==> forall x <- names.value :: Brackets(x) == 0
    decreases bound, 1
  {
    if names.Err? then names else EmitAll(prefix, names.value, suffix, bound)
  }

  function EmitAll(prefix: string, names: seq<string>, suffix: string, bound: nat): Hosts
    requires Brackets(prefix) + Brackets(suffix) < bound
    requires forall x <- names :: Brackets(x) == 0
    decreases bound, 0, |names|
  {
    if names == [] then Ok([])
    else
      BracketsConcat(prefix, names[0]);
      BracketsConcat(prefix + names[0], suffix);
      Then(if '[' in suffix then Expand(prefix + names[0] + suffix) else Ok([prefix + names[0] + suffix]),
           EmitAll(prefix, names[1..], suffix, bound))
  }

  // ---- why the recursion ends: the number of `[` falls ---------------------

  lemma {:induction false} SplitTopBrackets(s: string, depth: int, buf: string)
    ensures forall p <- SplitTop(s, depth, buf) :: Brackets(p) <= Brackets(buf) + Brackets(s)
  {
    if s != "" {
      BracketsConcat(buf, [s[0]]);
      assert Brackets([s[0]]) == if s[0] == '[' then 1 else 0 by {
        assert [s[0]][1..] == "";
      }
      var depth' := if s[0] == '[' then depth + 1 else if s[0] == ']' then depth - 1 else depth;
      SplitTopBrackets(s[1..], depth', "");
      SplitTopBrackets(s[1..], depth', buf + [s[0]]);
    }
  }

  lemma GroupBrackets(part: string, at: nat, n: nat)
    requires at + n + 1 < |part| && part[at] == '['
    ensures Brackets(part[..at]) + Brackets(part[at + n + 2..]) < Brackets(part)
  {
    var group, rest := part[at..at + n + 2], part[at + n + 2..];
    assert part == part[..at] + (group + rest);
    BracketsConcat(part[..at], group + rest);
    BracketsConcat(group, rest);
  }

  lemma {:induction false} SplitOnPieces(s: string, c: char)
    ensures forall p <- SplitOn(s, c), x <- p :: x in s && x != c
  {
    if s != "" {
      SplitOnPieces(s[1..], c);
    }
  }

  lemma {:induction false} NamesHaveNoBrackets(ranges: seq<string>)
    requires forall r <- ranges, x <- r :: x != '['
    ensures AllNames(ranges).Ok? ==> forall x <- AllNames(ranges).value :: Brackets(x) == 0
  {
    if ranges != [] {
      NamesHaveNoBrackets(ranges[1..]);
      RangeHasNoBrackets(ranges[0]);
    }
  }

  lemma RangeHasNoBrackets(rng: string)
    requires '[' !in rng
    ensures RangeNames(rng).Ok? ==> forall x <- RangeNames(rng).value :: Brackets(x) == 0
  {
    if RangeNames(rng).Ok? {
      forall x <- RangeNames(rng).value
        ensures Brackets(x) == 0
      {
        NoBrackets(x);
      }
    }
  }

  // ---- the code's loops ----------------------------------------------------

  lemma ThenLaws(a: Hosts, b: Hosts, c: Hosts)
    ensures Then(Ok([]), a) == a && Then(a, Ok([])) == a
    ensures Then(Then(a, b), c) == Then(a, Then(b, c))
  {
    if a.Ok? {
      assert [] + a.value == a.value && a.value + [] == a.value;
    }
    if a.Ok? && b.Ok? && c.Ok? {
      assert (a.value + b.value) + c.value == a.value + (b.value + c.value);
    }
  }

  lemma {:induction false} EmitAllConcat(prefix: string, a: seq<string>, b: seq<string>, suffix: string, bound: nat)
    requires Brackets(prefix) + Brackets(suffix) < bound
    requires (forall x <- a :: Brackets(x) == 0) && forall x <- b :: Brackets(x) == 0
    ensures EmitAll(prefix, a + b, suffix, bound) ==
            Then(EmitAll(prefix, a, suffix, bound), EmitAll(prefix, b, suffix, bound))
  {
    var all := EmitAll(prefix, b, suffix, bound);
    if a == [] {
      assert a + b == b;
      ThenLaws(all, all, all);
    } else {
      assert (a + b)[0] == a[0] && (a + b)[1..] == a[1..] + b;
      EmitAllConcat(prefix, a[1..], b, suffix, bound);
      var first := if '[' in suffix then Expand(prefix + a[0] + suffix) else Ok([prefix + a[0] + suffix]);
      ThenLaws(first, EmitAll(prefix, a[1..], suffix, bound), all);
    }
  }

  lemma EmitThen(prefix: string, a: Hosts, b: Hosts, suffix: string, bound: nat)
    requires Brackets(prefix) + Brackets(suffix) < bound
    requires a.Ok? ==> forall x <- a.value :: Brackets(x) == 0
    requires b.Ok? ==> forall x <- b.value :: Brackets(x) == 0
    ensures Emit(prefix, Then(a, b), suffix, bound) ==
            Then(Emit(prefix, a, suffix, bound), Emit(prefix, b, suffix, bound))
  {
    if a.Ok? && b.Err? {
      var first := EmitAll(prefix, a.value, suffix, bound);
      assert b.error.BadNumber? && (first.Err? ==> first.error.BadNumber?);
    }
    if a.Ok? && b.Ok? {
      EmitAllConcat(prefix, a.value, b.value, suffix, bound);
    }
  }

  /** `expand_hostlist`: the character loop, then each piece in turn. */
  method ExpandHostlist(spec: string) returns (hosts: Hosts)
    ensures hosts == Expand(spec)
    decreases Brackets(spec), 2
  {
    var s := Strip(spec);
    if Reserved(s) {
      return Ok([]);
    }
    var parts := SplitPieces(s);
    SplitTopBrackets(s, 0, "");
    hosts := Ok([]);
    ThenLaws(ExpandParts(parts, Brackets(spec)), hosts, hosts);
    for i := 0 to |parts|
      invariant Then(hosts, ExpandParts(parts[i..], Brackets(spec))) == Expand(spec)
    {
      assert parts[i] in parts && parts[i..][1..] == parts[i + 1..];
      var more := ExpandPiece(parts[i]);
      ThenLaws(hosts, more, ExpandParts(parts[i + 1..], Brackets(spec)));
      hosts := Then(hosts, more);
    }
    ThenLaws(hosts, hosts, hosts);
  }

  method SplitPieces(s: string) returns (parts: seq<string>)
    ensures parts == SplitTop(s, 0, "")
  {
    var depth, buf := 0, "";
    parts := [];
    for i := 0 to |s|
      invariant parts + SplitTop(s[i..], depth, buf) == SplitTop(s, 0, "")
    {
      assert s[i..][1..] == s[i + 1..];
      if s[i] == '[' {
        depth := depth + 1;
      } else if s[i] == ']' {
        depth := depth - 1;
      }
      if s[i] == ',' && depth == 0 {
        parts := parts + [buf];
        buf := "";
      } else {
        buf := buf + [s[i]];
      }
    }
    if buf != "" {
      parts := parts + [buf];
    }
  }

  /** The loop body over one piece; a number that does not parse ends the call. */
  method ExpandPiece(part: string) returns (hosts: Hosts)
    ensures hosts == ExpandPart(part)
    decreases Brackets(part), 1
  {
    var found := FindGroup(part, 0);
    if found.None? {
      return Ok([part]);
    }
    var (at, n) := found.value;
    var prefix, body, suffix := part[..at], part[at + 1..at + n + 1], part[at + n + 2..];
    var ranges := SplitOn(body, ',');
    GroupIs(part, at, n);
    PartAt(part, at, n, prefix, body, suffix);
    PiecesHaveNoBrackets(body);
    assert ranges[0..] == ranges;
    assert EmitRanges(prefix, ranges, suffix, Brackets(part)) == ExpandPart(part);
    hosts := Ok([]);
    ThenLaws(ExpandPart(part), hosts, hosts);
    for i := 0 to |ranges|
      invariant forall r <- ranges[i..], x <- r :: x != '['
      invariant Then(hosts, EmitRanges(prefix, ranges[i..], suffix, Brackets(part))) == ExpandPart(part)
    {
      EmitRangesStep(prefix, ranges[i..], suffix, Brackets(part));
      assert ranges[i..][1..] == ranges[i + 1..];
      var more := EmitRange(prefix, ranges[i], suffix, Brackets(part));
      ThenLaws(hosts, more, EmitRanges(prefix, ranges[i + 1..], suffix, Brackets(part)));
      hosts := Then(hosts, more);
    }
    assert ranges[|ranges|..] == [] && AllNames([]) == Ok([]);
    assert EmitAll(prefix, [], suffix, Brackets(part)) == Ok([]);
    ThenLaws(hosts, hosts, hosts);
  }

  ghost function EmitRanges(prefix: string, ranges: seq<string>, suffix: string, bound: nat): Hosts
    requires Brackets(prefix) + Brackets(suffix) < bound
    requires forall r <- ranges, x <- r :: x != '['
  {
    NamesHaveNoBrackets(ranges);
    Emit(prefix, AllNames(ranges), suffix, bound)
  }

  lemma EmitRangesStep(prefix: string, ranges: seq<string>, suffix: string, bound: nat)
    requires Brackets(prefix) + Brackets(suffix) < bound
    requires ranges != [] && forall r <- ranges, x <- r :: x != '['
    ensures RangeNames(ranges[0]).Ok? ==> forall x <- RangeNames(ranges[0]).value :: Brackets(x) == 0
    ensures EmitRanges(prefix, ranges, suffix, bound) ==
            Then(Emit(prefix, RangeNames(ranges[0]), suffix, bound), EmitRanges(prefix, ranges[1..], suffix, bound))
  {
    NamesHaveNoBrackets(ranges[1..]);
    RangeHasNoBrackets(ranges[0]);
    EmitThen(prefix, RangeNames(ranges[0]), AllNames(ranges[1..]), suffix, bound);
  }

  method EmitRange(prefix: string, rng: string, suffix: string, ghost bound: nat) returns (hosts: Hosts)
    requires Brackets(prefix) + Brackets(suffix) < bound
    requires RangeNames(rng).Ok? ==> forall x <- RangeNames(rng).value :: Brackets(x) == 0
    ensures hosts == Emit(prefix, RangeNames(rng), suffix, bound)
    decreases bound, 0
  {
    var parsed := RangeNames(rng);
    if parsed.Err? {
      return parsed;
    }
    var names := parsed.value;
    hosts := Ok([]);
    ThenLaws(EmitAll(prefix, names, suffix, bound), hosts, hosts);
    for i := 0 to |names|
      invariant Then(hosts, EmitAll(prefix, names[i..], suffix, bound)) == Emit(prefix, parsed, suffix, bound)
    {
      BracketsConcat(prefix, names[i]);
      BracketsConcat(prefix + names[i], suffix);
      var more := Ok([prefix + names[i] + suffix]);
      if '[' in suffix {
        more := ExpandHostlist(prefix + names[i] + suffix);
      }
      assert names[i..][1..] == names[i + 1..];
      ThenLaws(hosts, more, EmitAll(prefix, names[i + 1..], suffix, bound));
      hosts := Then(hosts, more);
    }
    ThenLaws(hosts, hosts, hosts);
  }

  // ---- hostlists and what they mean ----------------------------------------

  /** Any comma-free text of digits and hyphens: without a hyphen, or cut at the first one. */
  datatype Range = One(digits: string) | Span(lo: string, hi: string)

  /** A name, or text followed by a bracket group and the rest: any number of dimensions. */
  datatype Term = Name(text: string) | Group(text: string, ranges: seq<Range>, rest: Term)

  predicate Plain(text: string) {
    forall c <- text :: c != '[' && c != ']' && c != ',' && !IsSpace(c)
  }

  predicate Numeral(s: string) { s != "" && AllDigits(s) }

  predicate WellFormedRange(r: Range) {
    match r
    case One(digits) => AllDigits(digits)
    case Span(lo, hi) => AllDigits(lo) && forall c <- hi :: IsDigit(c) || c == '-'
  }

  predicate WellFormedTail(t: Term) {
    match t
    case Name(text) => Plain(text)
    case Group(text, ranges, rest) =>
      Plain(text) && ranges != [] && PrintRanges(ranges) != "" && (forall r <- ranges :: WellFormedRange(r)) &&
      WellFormedTail(rest)
  }

  predicate WellFormed(h: seq<Term>) {
    forall t <- h :: WellFormedTail(t) && t != Name("")
  }

  function PrintRange(r: Range): string {
    match r
    case One(digits) => digits
    case Span(lo, hi) => lo + "-" + hi
  }

  function PrintEach(ranges: seq<Range>): (parts: seq<string>)
    ensures |parts| == |ranges| && forall i | 0 <= i < |parts| :: parts[i] == PrintRange(ranges[i])
  {
    if ranges == [] then [] else [PrintRange(ranges[0])] + PrintEach(ranges[1..])
  }

  function PrintRanges(ranges: seq<Range>): string { Join(PrintEach(ranges)) }

  function PrintTerm(t: Term): string {
    match t
    case Name(text) => text
    case Group(text, ranges, rest) => text + "[" + PrintRanges(ranges) + "]" + PrintTerm(rest)
  }

  function PrintAll(h: seq<Term>): (parts: seq<string>)
    ensures |parts| == |h| && forall i | 0 <= i < |parts| :: parts[i] == PrintTerm(h[i])
  {
    if h == [] then [] else [PrintTerm(h[0])] + PrintAll(h[1..])
  }

  function Print(h: seq<Term>): string { Join(PrintAll(h)) }

  /** Both sides of a hyphen are integers, of as many digits as are read. */
  predicate Readable(r: Range) { r.Span? ==> ParseInt(r.lo).Some? && ParseInt(r.hi).Some? }

  predicate AllReadable(ranges: seq<Range>) { forall r <- ranges :: Readable(r) }

  /** The numerals of one range: itself, or every number from `lo` to `hi` as wide as `lo`. */
  function RangeNumerals(r: Range): seq<string>
    requires WellFormedRange(r) && Readable(r)
  {
    match r
    case One(digits) => [digits]
    case Span(lo, hi) => Counting(Value(lo), ParseInt(hi).value, |lo|)
  }

  function Numerals(ranges: seq<Range>): seq<string>
    requires (forall r <- ranges :: WellFormedRange(r)) && AllReadable(ranges)
  {
    if ranges == [] then [] else RangeNumerals(ranges[0]) + Numerals(ranges[1..])
  }

  function PrefixAll(text: string, names: seq<string>): (r: seq<string>)
    ensures |r| == |names| && forall i | 0 <= i < |r| :: r[i] == text + names[i]
  {
    seq(|names|, i requires 0 <= i < |names| => text + names[i])
  }

  /** Every name of `a` followed by every name of `b`, `b` varying fastest. */
  function Product(a: seq<string>, b: seq<string>): seq<string> {
    if a == [] then [] else PrefixAll(a[0], b) + Product(a[1..], b)
  }

  /** Every range that is reached can be read: those of a group are, once the groups before it have a name. */
  predicate Reads(t: Term)
    requires WellFormedTail(t)
  {
    t.Group? ==> AllReadable(t.ranges) && (Numerals(t.ranges) != [] ==> Reads(t.rest))
  }

  function Denote(t: Term): seq<string>
    requires WellFormedTail(t) && Reads(t)
  {
    match t
    case Name(text) => [text]
    case Group(text, ranges, rest) =>
      if Numerals(ranges) == [] then [] else PrefixAll(text, Product(Numerals(ranges), Denote(rest)))
  }

  predicate AllRead(h: seq<Term>)
    requires WellFormed(h)
  {
    forall t <- h :: Reads(t)
  }

  function DenoteAll(h: seq<Term>): seq<string>
    requires WellFormed(h) && AllRead(h)
  {
    if h == [] then [] else Denote(h[0]) + DenoteAll(h[1..])
  }

  function Meaning(t: Term): Hosts
    requires WellFormedTail(t)
  {
    if Reads(t) then Ok(Denote(t)) else Err(BadNumber)
  }

  function MeaningAll(h: seq<Term>): Hosts
    requires WellFormed(h)
  {
    if AllRead(h) then Ok(DenoteAll(h)) else Err(BadNumber)
  }

  lemma RowIsInside(i: nat, rows: nat, n: nat, j: nat)
    requires i < rows && j < n
    ensures 0 <= i * n + j < rows * n
  {
    assert (rows - i - 1) * n >= 0;
    assert rows * n == i * n + n + (rows - i - 1) * n;
  }

  lemma {:induction false} ProductSize(a: seq<string>, b: seq<string>)
    ensures |Product(a, b)| == |a| * |b|
  {
    if a != [] {
      ProductSize(a[1..], b);
      assert (1 + |a[1..]|) * |b| == |b| + |a[1..]| * |b|;
    }
  }

  /** The product is lexicographic: position `i * |b| + j` holds the `i`-th then the `j`-th name. */
  lemma {:induction false} ProductAt(a: seq<string>, b: seq<string>, i: nat, j: nat)
    requires i < |a| && j < |b|
    ensures |Product(a, b)| == |a| * |b| && 0 <= i * |b| + j < |a| * |b|
    ensures Product(a, b)[i * |b| + j] == a[i] + b[j]
  {
    ProductSize(a, b);
    RowIsInside(i, |a|, |b|, j);
    if i == 0 {
      assert i * |b| + j == j;
    } else {
      ProductAt(a[1..], b, i - 1, j);
      assert i * |b| + j == |b| + ((i - 1) * |b| + j);
    }
  }

  /** A range keeps its zero padding: numbers counted from `lo`, each at least as wide as `lo`, and
      all of one width when `lo` and `hi` are. */
  lemma PaddingIsKept(r: Range, i: nat)
    requires WellFormedRange(r) && r.Span? && Readable(r) && i < |RangeNumerals(r)|
    ensures var x := RangeNumerals(r)[i];
            AllDigits(x) && Value(x) == Value(r.lo) + i <= ParseInt(r.hi).value && |x| >= |r.lo|
    ensures |r.lo| == |r.hi| && AllDigits(r.hi) ==> |RangeNumerals(r)[i]| == |r.lo|
  {
    var n := Value(r.lo) + i;
    assert ParseInt(r.lo) == Some(Value(r.lo));
    assert RangeNumerals(r) == Counting(Value(r.lo), ParseInt(r.hi).value, |r.lo|);
    assert RangeNumerals(r)[i] == Zfill(Decimal(n), |r.lo|);
    if |r.lo| == |r.hi| && AllDigits(r.hi) {
      DecimalIsShortest(n, r.hi);
    }
  }

  lemma {:induction false} DecimalIsShortest(n: nat, s: string)
    requires Numeral(s) && n <= Value(s)
    ensures |Decimal(n)| <= |s|
  {
    var init := s[..|s| - 1];
    if n >= 10 {
      assert IsDigit(s[|s| - 1]);
      assert init != "";
      DecimalIsShortest(n / 10, init);
    }
  }

  // ---- the round trip ------------------------------------------------------

  lemma {:induction false} SplitTopSkips(text: string, tail: string, depth: int, buf: string)
    requires forall c <- text :: c != '[' && c != ']' && (depth == 0 ==> c != ',')
    ensures SplitTop(text + tail, depth, buf) == SplitTop(tail, depth, buf + text)
  {
    if text == "" {
      assert text + tail == tail && buf + text == buf;
    } else {
      assert (text + tail)[1..] == text[1..] + tail;
      assert text[0] in text && forall c <- text[1..] :: c in text;
      SplitTopSkips(text[1..], tail, depth, buf + [text[0]]);
      assert buf + [text[0]] + text[1..] == buf + text;
    }
  }

  lemma {:induction false} JoinChars(parts: seq<string>, c: char)
    requires c in Join(parts)
    ensures c == ',' || exists p <- parts :: c in p
  {
    if |parts| > 1 && c !in parts[0] && c != ',' {
      JoinChars(parts[1..], c);
    }
  }

  lemma RangeInGroup(r: Range, c: char)
    requires WellFormedRange(r) && c in PrintRange(r)
    ensures InGroup(c)
  {
  }

  lemma RangesInGroup(ranges: seq<Range>)
    requires forall r <- ranges :: WellFormedRange(r)
    ensures forall c <- PrintRanges(ranges) :: InGroup(c)
  {
    var parts := PrintEach(ranges);
    forall c <- PrintRanges(ranges)
      ensures InGroup(c)
    {
      JoinChars(parts, c);
      if c != ',' {
        var i :| 0 <= i < |parts| && c in parts[i];
        RangeInGroup(ranges[i], c);
      }
    }
  }

  lemma SplitTopPassesGroup(text: string, body: string, last: string, buf: string)
    requires Plain(text) && forall c <- body :: InGroup(c)
    ensures SplitTop(text + ("[" + (body + ("]" + last))), 0, buf) ==
            SplitTop(last, 0, buf + text + "[" + body + "]")
  {
    var closing := "]" + last;
    var opening := "[" + (body + closing);
    SplitTopSkips(text, opening, 0, buf);
    assert opening[1..] == body + closing;
    SplitTopSkips(body, closing, 1, buf + text + "[");
    assert closing[1..] == last;
  }

  lemma {:induction false} SplitTopPassesTerm(t: Term, tail: string, buf: string)
    requires WellFormedTail(t)
    ensures SplitTop(PrintTerm(t) + tail, 0, buf) == SplitTop(tail, 0, buf + PrintTerm(t))
  {
    match t
    case Name(text) => SplitTopSkips(text, tail, 0, buf);
    case Group(text, ranges, rest) =>
      RangesInGroup(ranges);
      var body, last := PrintRanges(ranges), PrintTerm(rest) + tail;
      assert PrintTerm(t) + tail == text + ("[" + (body + ("]" + last)));
      SplitTopPassesGroup(text, body, last, buf);
      SplitTopPassesTerm(rest, tail, buf + text + "[" + body + "]");
      assert buf + text + "[" + body + "]" + PrintTerm(rest) == buf + PrintTerm(t);
  }

  lemma SplitTopAfterTerm(t: Term, more: string)
    requires WellFormedTail(t)
    ensures SplitTop(PrintTerm(t) + ("," + more), 0, "") == [PrintTerm(t)] + SplitTop(more, 0, "")
  {
    SplitTopPassesTerm(t, "," + more, "");
    assert "" + PrintTerm(t) == PrintTerm(t) && ("," + more)[1..] == more;
  }

  lemma SplitTopOfOne(t: Term)
    requires WellFormedTail(t) && PrintTerm(t) != ""
    ensures SplitTop(PrintTerm(t), 0, "") == [PrintTerm(t)]
  {
    SplitTopPassesTerm(t, "", "");
    assert PrintTerm(t) + "" == PrintTerm(t) && "" + PrintTerm(t) == PrintTerm(t);
  }

  lemma {:induction false} SplitTopOfPrint(h: seq<Term>)
    requires WellFormed(h)
    ensures SplitTop(Print(h), 0, "") == PrintAll(h)
  {
    if h != [] {
      assert h[0] in h && PrintTerm(h[0]) != "";
      if |h| == 1 {
        SplitTopOfOne(h[0]);
      } else {
        assert Print(h) == PrintTerm(h[0]) + ("," + Print(h[1..]));
        SplitTopAfterTerm(h[0], Print(h[1..]));
        SplitTopOfPrint(h[1..]);
      }
    }
  }

  lemma {:induction false} TermHasNoSpace(t: Term)
    requires WellFormedTail(t)
    ensures forall c <- PrintTerm(t) :: !IsSpace(c)
  {
    if t.Group? {
      RangesInGroup(t.ranges);
      TermHasNoSpace(t.rest);
    }
  }

  lemma PrintIsTidy(h: seq<Term>)
    requires WellFormed(h)
    ensures Strip(Print(h)) == Print(h)
  {
    forall c <- Print(h)
      ensures !IsSpace(c)
    {
      JoinChars(PrintAll(h), c);
      if c != ',' {
        var i :| 0 <= i < |h| && c in PrintTerm(h[i]);
        TermHasNoSpace(h[i]);
      }
    }
  }

  lemma {:induction false} GroupRunStops(s: string, n: nat)
    requires n < |s| && !InGroup(s[n]) && forall k | 0 <= k < n :: InGroup(s[k])
    ensures GroupRun(s) == n
  {
    if n > 0 {
      GroupRunStops(s[1..], n - 1);
    }
  }

  lemma {:induction false} FindGroupSkips(s: string, i: nat, end: nat)
    requires i <= end <= |s| && forall k | i <= k < end :: s[k] != '['
    ensures FindGroup(s, i) == FindGroup(s, end)
    decreases end - i
  {
    if i < end {
      assert !GroupStarts(s, i);
      FindGroupSkips(s, i + 1, end);
    }
  }

  lemma GroupSlices(text: string, body: string, last: string)
    ensures var s := text + "[" + body + "]" + last;
            s[..|text|] == text && s[|text|] == '[' && s[|text| + 1..] == body + "]" + last &&
            s[|text| + 1..|text| + |body| + 1] == body && s[|text| + |body| + 1] == ']' &&
            s[|text| + |body| + 2..] == last
  {
  }

  lemma FindGroupThere(s: string, at: nat, n: nat)
    requires 0 < n && at + n + 1 < |s| && s[at] == '[' && s[at + n + 1] == ']'
    requires '[' !in s[..at] && forall c <- s[at + 1..at + n + 1] :: InGroup(c)
    ensures FindGroup(s, 0) == Some((at, n))
  {
    var tail := s[at + 1..];
    forall k | 0 <= k < n
      ensures InGroup(tail[k])
    {
      assert tail[k] == s[at + 1..at + n + 1][k];
    }
    GroupRunStops(tail, n);
    assert GroupStarts(s, at);
    forall k | 0 <= k < at
      ensures s[k] != '['
    {
      assert s[k] == s[..at][k];
    }
    FindGroupSkips(s, 0, at);
  }

  lemma {:induction false} SplitOnSkips(p: string, tail: string, c: char)
    requires c !in p
    ensures SplitOn(p, c) == [p]
    ensures SplitOn(p + [c] + tail, c) == [p] + SplitOn(tail, c)
  {
    var all := p + [c] + tail;
    if p == "" {
      assert all[1..] == tail;
    } else {
      SplitOnSkips(p[1..], tail, c);
      assert p[0] in p && [p[0]] + p[1..] == p;
      assert all[1..] == p[1..] + [c] + tail;
    }
  }

  lemma {:induction false} SplitOnJoin(parts: seq<string>)
    requires parts != [] && forall p <- parts :: ',' !in p
    ensures SplitOn(Join(parts), ',') == parts
  {
    if |parts| == 1 {
      SplitOnSkips(parts[0], "", ',');
    } else {
      SplitOnSkips(parts[0], Join(parts[1..]), ',');
      SplitOnJoin(parts[1..]);
    }
  }

  lemma {:induction false} FirstHyphen(lo: string, hi: string)
    requires '-' !in lo
    ensures IndexOf(lo + "-" + hi, '-') == |lo|
  {
    var s := lo + "-" + hi;
    assert s[|lo|] == '-';
    if lo != "" {
      assert s[1..] == lo[1..] + "-" + hi && s[0] == lo[0] && lo[0] in lo;
      FirstHyphen(lo[1..], hi);
    }
  }

  lemma RangeNamesOfPrint(r: Range)
    requires WellFormedRange(r)
    ensures RangeNames(PrintRange(r)) == if Readable(r) then Ok(RangeNumerals(r)) else Err(BadNumber)
    ensures ',' !in PrintRange(r)
  {
    if r.Span? {
      var s := PrintRange(r);
      assert s[|r.lo|] == '-' && s[..|r.lo|] == r.lo && s[|r.lo| + 1..] == r.hi;
      FirstHyphen(r.lo, r.hi);
    }
  }

  /** What a group's ranges stand for. */
  function Names(ranges: seq<Range>): Hosts
    requires forall r <- ranges :: WellFormedRange(r)
  {
    if AllReadable(ranges) then Ok(Numerals(ranges)) else Err(BadNumber)
  }

  lemma {:induction false} AllNamesOfPrint(ranges: seq<Range>)
    requires forall r <- ranges :: WellFormedRange(r)
    ensures AllNames(PrintEach(ranges)) == Names(ranges)
  {
    if ranges != [] {
      assert ranges == [ranges[0]] + ranges[1..];
      RangeNamesOfPrint(ranges[0]);
      AllNamesOfPrint(ranges[1..]);
      assert AllReadable(ranges) <==> Readable(ranges[0]) && AllReadable(ranges[1..]);
    }
  }

  lemma {:induction false} NumeralsAreDigits(ranges: seq<Range>)
    requires (forall r <- ranges :: WellFormedRange(r)) && AllReadable(ranges)
    ensures forall x <- Numerals(ranges) :: AllDigits(x)
  {
    if ranges != [] {
      RangeNumeralsAreDigits(ranges[0]);
      NumeralsAreDigits(ranges[1..]);
    }
  }

  lemma RangeNumeralsAreDigits(r: Range)
    requires WellFormedRange(r) && Readable(r)
    ensures forall x <- RangeNumerals(r) :: AllDigits(x)
  {
  }

  function Groups(t: Term): nat {
    if t.Name? then 0 else 1 + Groups(t.rest)
  }

  /** A candidate is again a printed term, with one group fewer. */
  function Prepend(text: string, t: Term): Term {
    match t
    case Name(own) => Name(text + own)
    case Group(own, ranges, rest) => Group(text + own, ranges, rest)
  }

  lemma PrependPrints(text: string, t: Term)
    requires Plain(text) && WellFormedTail(t)
    ensures var p := Prepend(text, t);
            WellFormedTail(p) && Groups(p) == Groups(t) && PrintTerm(p) == text + PrintTerm(t) && Reads(p) == Reads(t)
  {
    if t.Group? {
      assert text + t.text + "[" + PrintRanges(t.ranges) + "]" + PrintTerm(t.rest) == text + PrintTerm(t);
    }
  }

  lemma PrependMeans(text: string, t: Term)
    requires Plain(text) && WellFormedTail(t) && Reads(t)
    ensures var p := Prepend(text, t); WellFormedTail(p) && Reads(p) && Denote(p) == PrefixAll(text, Denote(t))
  {
    PrependPrints(text, t);
    if t.Group? && Numerals(t.ranges) != [] {
      PrefixTwice(text, t.text, Product(Numerals(t.ranges), Denote(t.rest)));
    }
  }

  lemma PrefixTwice(text: string, own: string, names: seq<string>)
    ensures PrefixAll(text + own, names) == PrefixAll(text, PrefixAll(own, names))
  {
    assert forall i | 0 <= i < |names| :: (text + own) + names[i] == text + (own + names[i]);
  }

  lemma DigitsArePlain(text: string, x: string)
    requires Plain(text) && AllDigits(x)
    ensures Plain(text + x)
  {
  }

  /** Every name of a group put in its place, and what follows expanded. */
  function Emitted(text: string, names: seq<string>, rest: Term): Hosts
    requires WellFormedTail(rest)
  {
    if names == [] then Ok([])
    else if Reads(rest) then Ok(PrefixAll(text, Product(names, Denote(rest))))
    else Err(BadNumber)
  }

  /** What one candidate stands for: `head`, then the rest. */
  function Candidate(head: string, rest: Term): Hosts
    requires WellFormedTail(rest)
  {
    if Reads(rest) then Ok(PrefixAll(head, Denote(rest))) else Err(BadNumber)
  }

  lemma EmittedStep(text: string, x: string, more: seq<string>, rest: Term)
    requires WellFormedTail(rest)
    ensures Emitted(text, [x] + more, rest) == Then(Candidate(text + x, rest), Emitted(text, more, rest))
  {
    assert ([x] + more)[1..] == more;
    if Reads(rest) {
      PrefixProduct(text, x, Denote(rest), Product(more, Denote(rest)));
      assert PrefixAll(text + x, Denote(rest)) + [] == PrefixAll(text + x, Denote(rest));
    }
  }

  lemma EmitOneMore(prefix: string, names: seq<string>, suffix: string, bound: nat)
    requires names != [] && Brackets(prefix) + Brackets(suffix) < bound && forall x <- names :: Brackets(x) == 0
    ensures Brackets(prefix + names[0] + suffix) < bound
    ensures EmitAll(prefix, names, suffix, bound) ==
            Then(if '[' in suffix then Expand(prefix + names[0] + suffix) else Ok([prefix + names[0] + suffix]),
                 EmitAll(prefix, names[1..], suffix, bound))
  {
    BracketsConcat(prefix, names[0]);
    BracketsConcat(prefix + names[0], suffix);
  }

  lemma {:induction false} EmitMeans(text: string, names: seq<string>, rest: Term, bound: nat)
    requires Plain(text) && WellFormedTail(rest) && forall x <- names :: AllDigits(x) && Brackets(x) == 0
    requires Brackets(text) + Brackets(PrintTerm(rest)) < bound
    ensures EmitAll(text, names, PrintTerm(rest), bound) == Emitted(text, names, rest)
    decreases Groups(rest), 3, |names|
  {
    if names != [] {
      EmitOneMore(text, names, PrintTerm(rest), bound);
      EmitMeans(text, names[1..], rest, bound);
      DigitsArePlain(text, names[0]);
      CandidateMeans(text + names[0], rest);
      EmittedStep(text, names[0], names[1..], rest);
      assert names == [names[0]] + names[1..];
    }
  }

  lemma PrefixProduct(text: string, x: string, b: seq<string>, c: seq<string>)
    ensures PrefixAll(text + x, b) + PrefixAll(text, c) == PrefixAll(text, PrefixAll(x, b) + c)
  {
    assert forall i | 0 <= i < |b| :: (text + x) + b[i] == text + (x + b[i]);
  }

  lemma {:induction false} CandidateMeans(head: string, rest: Term)
    requires Plain(head) && WellFormedTail(rest)
    ensures '[' in PrintTerm(rest) ==> Expand(head + PrintTerm(rest)) == Candidate(head, rest)
    ensures '[' !in PrintTerm(rest) ==> Ok([head + PrintTerm(rest)]) == Candidate(head, rest)
    decreases Groups(rest), 2
  {
    if rest.Group? {
      assert PrintTerm(rest)[|rest.text|] == '[';
      PrependPrints(head, rest);
      TermMeans(Prepend(head, rest));
      if Reads(rest) {
        PrependMeans(head, rest);
      }
    } else {
      assert '[' !in rest.text;
      assert PrefixAll(head, [rest.text]) == [head + rest.text];
    }
  }

  lemma RangesParse(ranges: seq<Range>)
    requires ranges != [] && forall r <- ranges :: WellFormedRange(r)
    ensures BodyNames(PrintRanges(ranges)) == Names(ranges)
  {
    var parts := PrintEach(ranges);
    forall i | 0 <= i < |ranges|
      ensures ',' !in parts[i]
    {
      RangeNamesOfPrint(ranges[i]);
    }
    SplitOnJoin(parts);
    AllNamesOfPrint(ranges);
  }

  lemma GroupOfPrint(t: Term)
    requires WellFormedTail(t) && t.Group?
    ensures
      var part, text, body, last := PrintTerm(t), t.text, PrintRanges(t.ranges), PrintTerm(t.rest);
      && FindGroup(part, 0) == Some((|text|, |body|)) && |part| == |text| + |body| + |last| + 2
      && part[..|text|] == text && part[|text| + 1..|text| + |body| + 1] == body && part[|text| + |body| + 2..] == last
  {
    RangesInGroup(t.ranges);
    assert PrintTerm(t) == t.text + "[" + PrintRanges(t.ranges) + "]" + PrintTerm(t.rest);
    GroupIsThere(PrintTerm(t), t.text, PrintRanges(t.ranges), PrintTerm(t.rest));
  }

  lemma GroupIsThere(part: string, text: string, body: string, last: string)
    requires part == text + "[" + body + "]" + last && '[' !in text && body != "" && forall c <- body :: InGroup(c)
    ensures FindGroup(part, 0) == Some((|text|, |body|)) && |part| == |text| + |body| + |last| + 2
    ensures part[..|text|] == text && part[|text| + 1..|text| + |body| + 1] == body
    ensures part[|text| + |body| + 2..] == last
  {
    GroupSlices(text, body, last);
    FindGroupThere(part, |text|, |body|);
  }

  lemma NamesOfPrint(t: Term)
    requires WellFormedTail(t) && t.Group?
    ensures BodyNames(PrintRanges(t.ranges)) == Names(t.ranges)
    ensures AllReadable(t.ranges) ==> forall x <- Numerals(t.ranges) :: AllDigits(x)
  {
    RangesParse(t.ranges);
    if AllReadable(t.ranges) {
      NumeralsAreDigits(t.ranges);
    }
  }

  lemma TermIsOnePart(t: Term)
    requires WellFormedTail(t) && t.Group?
    ensures Expand(PrintTerm(t)) == ExpandPart(PrintTerm(t))
  {
    var s := PrintTerm(t);
    PrintIsTidy([t]);
    SplitTopOfPrint([t]);
    assert Print([t]) == s && PrintAll([t]) == [s];
    GroupsAreNotReserved([t]);
    SplitTopBrackets(s, 0, "");
    assert Expand(s) == ExpandParts([s], Brackets(s));
    assert ExpandParts([s], Brackets(s)) == Then(ExpandPart(s), ExpandParts([s][1..], Brackets(s)));
    assert [s][1..] == [];
    ThenLaws(ExpandPart(s), Ok([]), Ok([]));
  }

  lemma MeaningOfGroup(t: Term)
    requires WellFormedTail(t) && t.Group?
    ensures Meaning(t) == if AllReadable(t.ranges) then Emitted(t.text, Numerals(t.ranges), t.rest) else Err(BadNumber)
  {
  }

  lemma PartAt(part: string, at: nat, n: nat, text: string, body: string, last: string)
    requires FindGroup(part, 0) == Some((at, n))
    requires text == part[..at] && body == part[at + 1..at + n + 1] && last == part[at + n + 2..]
    ensures Brackets(text) + Brackets(last) < Brackets(part)
    ensures BodyNames(body).Ok? ==> forall x <- BodyNames(body).value :: Brackets(x) == 0
    ensures ExpandPart(part) == Emit(text, BodyNames(body), last, Brackets(part))
  {
    GroupIs(part, at, n);
    BodyHasNoBrackets(body);
  }

  lemma {:induction false} PartMeans(t: Term)
    requires WellFormedTail(t)
    ensures ExpandPart(PrintTerm(t)) == Meaning(t)
    decreases Groups(t), 0
  {
    match t
    case Name(text) =>
      assert forall k | 0 <= k < |text| :: text[k] in text;
      FindGroupSkips(text, 0, |text|);
    case Group(text, ranges, rest) =>
      GroupOfPrint(t);
      NamesOfPrint(t);
      MeaningOfGroup(t);
      PartAt(PrintTerm(t), |text|, |PrintRanges(ranges)|, text, PrintRanges(ranges), PrintTerm(rest));
      if AllReadable(ranges) {
        EmitMeans(text, Numerals(ranges), rest, Brackets(PrintTerm(t)));
      }
  }

  /** A term with a group, expanded as a whole hostlist of its own. */
  lemma {:induction false} TermMeans(t: Term)
    requires WellFormedTail(t) && t.Group?
    ensures Expand(PrintTerm(t)) == Meaning(t)
    decreases Groups(t), 1
  {
    TermIsOnePart(t);
    PartMeans(t);
  }

  lemma {:induction false} PartsMean(h: seq<Term>, bound: nat)
    requires WellFormed(h) && forall p <- PrintAll(h) :: Brackets(p) <= bound
    ensures ExpandParts(PrintAll(h), bound) == MeaningAll(h)
  {
    if h != [] {
      assert h == [h[0]] + h[1..];
      PartMeans(h[0]);
      PartsMean(h[1..], bound);
      assert AllRead(h) <==> Reads(h[0]) && AllRead(h[1..]);
    }
  }

  /** The round trip: expanding a printed hostlist gives exactly its meaning - its names, or the failure -
      unless the whole list prints as one of the scheduler's two spellings of "no nodes". */
  lemma RoundTrip(h: seq<Term>)
    requires WellFormed(h)
    ensures Expand(Print(h)) == MeaningAll(h) <==> Print(h) != "(null)" && Print(h) != "None"
  {
    var s := Print(h);
    PrintIsTidy(h);
    SplitTopOfPrint(h);
    SplitTopBrackets(s, 0, "");
    if h == [] {
    } else if Reserved(s) {
      GroupsAreNotReserved(h);
      ReservedIsOneName(h);
    } else {
      PartsMean(h, Brackets(s));
    }
  }

  /** White space around a list does not matter. */
  lemma AroundIt(a: string, s: string, b: string)
    requires Blank(a) && Blank(b) && Tidy(s)
    ensures Expand(a + s + b) == Expand(s)
  {
    StripIs(a, s, b);
    StripIs("", s, "");
    assert "" + s + "" == s;
    BlankHasNoBrackets(a);
    BlankHasNoBrackets(b);
    BracketsConcat(a, s);
    BracketsConcat(a + s, b);
    SplitTopBrackets(s, 0, "");
  }

  lemma ReservedIsOneName(h: seq<Term>)
    requires WellFormed(h) && h != [] && Reserved(Print(h))
    ensures AllRead(h) && DenoteAll(h) != []
  {
    GroupsAreNotReserved(h);
    assert h[0] in h && h[0].Name?;
    CommasBetween(h);
    assert ',' !in "(null)" && ',' !in "None";
    assert h == [h[0]];
  }

  lemma CommasBetween(h: seq<Term>)
    ensures |h| > 1 ==> ',' in Print(h)
  {
    if |h| > 1 {
      assert Print(h) == PrintTerm(h[0]) + "," + Print(h[1..]);
      assert Print(h)[|PrintTerm(h[0])|] == ',';
    }
  }

  lemma GroupsAreNotReserved(h: seq<Term>)
    requires WellFormed(h) && h != []
    ensures Print(h) != "" && (h[0].Group? ==> !Reserved(Print(h)))
  {
    assert h[0] in h && PrintTerm(h[0]) <= Print(h);
    if h[0].Group? {
      assert Print(h)[|h[0].text|] == PrintTerm(h[0])[|h[0].text|] == '[';
      assert '[' in Print(h);
    }
  }

  // ---- "discovery never loses a node" --------------------------------------

  /** The whole call raises exactly when some range it reaches has a hyphen and a side that is no integer, or
      one of more digits than are read. */
  lemma RaisesIff(h: seq<Term>)
    requires WellFormed(h)
    ensures Expand(Print(h)).Err? <==> !AllRead(h)
  {
    RoundTrip(h);
    PrintIsTidy(h);
    if h != [] && Reserved(Print(h)) {
      ReservedIsOneName(h);
    }
  }

  predicate CountsDown(r: Range)
    requires WellFormedRange(r) && Readable(r)
  {
    r.Span? && Value(r.lo) > ParseInt(r.hi).value
  }

  /** A readable range stands for no number at all exactly when it counts down. */
  lemma NothingIsCountedIff(r: Range)
    requires WellFormedRange(r) && Readable(r)
    ensures RangeNumerals(r) == [] <==> CountsDown(r)
  {
  }

  /** What returning verbatim whatever cannot be expanded would give for a range. */
  function Verbatim(r: Range): (names: seq<string>)
    requires WellFormedRange(r)
    ensures names != []
  {
    if Readable(r) && !CountsDown(r) then
      NothingIsCountedIff(r);
      RangeNumerals(r)
    else [PrintRange(r)]
  }

  function VerbatimRanges(ranges: seq<Range>): seq<string>
    requires forall r <- ranges :: WellFormedRange(r)
  {
    if ranges == [] then [] else Verbatim(ranges[0]) + VerbatimRanges(ranges[1..])
  }

  function VerbatimTerm(t: Term): seq<string>
    requires WellFormedTail(t)
  {
    match t
    case Name(text) => [text]
    case Group(text, ranges, rest) => PrefixAll(text, Product(VerbatimRanges(ranges), VerbatimTerm(rest)))
  }

  function VerbatimAll(h: seq<Term>): seq<string>
    requires WellFormed(h)
  {
    if h == [] then [] else VerbatimTerm(h[0]) + VerbatimAll(h[1..])
  }

  /** Every range of every dimension can be read and counts up. */
  predicate CountsUp(ranges: seq<Range>)
    requires forall r <- ranges :: WellFormedRange(r)
  {
    forall r <- ranges :: Readable(r) && !CountsDown(r)
  }

  predicate Lossless(t: Term)
    requires WellFormedTail(t)
  {
    t.Group? ==> CountsUp(t.ranges) && Lossless(t.rest)
  }

  lemma {:induction false} NumeralsKeptIff(ranges: seq<Range>)
    requires (forall r <- ranges :: WellFormedRange(r)) && AllReadable(ranges)
    ensures |VerbatimRanges(ranges)| >= |ranges|
    ensures if CountsUp(ranges) then Numerals(ranges) == VerbatimRanges(ranges)
            else |Numerals(ranges)| < |VerbatimRanges(ranges)|
  {
    if ranges != [] {
      assert ranges == [ranges[0]] + ranges[1..];
      NothingIsCountedIff(ranges[0]);
      NumeralsKeptIff(ranges[1..]);
      assert CountsUp(ranges) <==> !CountsDown(ranges[0]) && CountsUp(ranges[1..]);
    }
  }

  lemma {:induction false} VerbatimIsNotEmpty(t: Term)
    requires WellFormedTail(t)
    ensures VerbatimTerm(t) != []
  {
    if t.Group? {
      VerbatimIsNotEmpty(t.rest);
      assert VerbatimRanges(t.ranges) != [];
      ProductSize(VerbatimRanges(t.ranges), VerbatimTerm(t.rest));
      LessTimes(0, 0, |VerbatimRanges(t.ranges)|, |VerbatimTerm(t.rest)|);
    }
  }

  lemma LessTimes(n: nat, d: nat, m: nat, e: nat)
    requires n <= m && d <= e && m > 0 && e > 0 && (n < m || d < e)
    ensures n * d < m * e
  {
    if n < m {
      assert n * d <= n * e;
      assert (m - n) * e > 0;
    } else {
      assert m * (e - d) > 0;
    }
  }

  lemma {:induction false} TermKeptIff(t: Term)
    requires WellFormedTail(t) && Reads(t)
    ensures if Lossless(t) then Denote(t) == VerbatimTerm(t) else |Denote(t)| < |VerbatimTerm(t)|
  {
    VerbatimIsNotEmpty(t);
    if t.Group? {
      var kept, rest := VerbatimRanges(t.ranges), VerbatimTerm(t.rest);
      NumeralsKeptIff(t.ranges);
      VerbatimIsNotEmpty(t.rest);
      ProductSize(kept, rest);
      if Numerals(t.ranges) != [] {
        TermKeptIff(t.rest);
        ProductSize(Numerals(t.ranges), Denote(t.rest));
        if !Lossless(t) {
          LessTimes(|Numerals(t.ranges)|, |Denote(t.rest)|, |kept|, |rest|);
        }
      }
    }
  }

  lemma {:induction false} AllKeptIff(h: seq<Term>)
    requires WellFormed(h) && AllRead(h)
    ensures if forall t <- h :: Lossless(t) then DenoteAll(h) == VerbatimAll(h)
            else |DenoteAll(h)| < |VerbatimAll(h)|
  {
    if h != [] {
      assert h == [h[0]] + h[1..];
      TermKeptIff(h[0]);
      AllKeptIff(h[1..]);
    }
  }

  lemma {:induction false} LosslessReads(t: Term)
    requires WellFormedTail(t) && Lossless(t)
    ensures Reads(t)
  {
    if t.Group? {
      LosslessReads(t.rest);
    }
  }

  /** "Anything that cannot be parsed is returned verbatim, so that no node is lost" holds of a hostlist exactly
      when it can all be parsed: when every range of every dimension has readable integers for sides and none counts
      down - and the list is not one of the two spellings of "no nodes". */
  lemma NoNodeIsLostIff(h: seq<Term>)
    requires WellFormed(h)
    ensures Expand(Print(h)) == Ok(VerbatimAll(h)) <==>
            (forall t <- h :: Lossless(t)) && Print(h) != "(null)" && Print(h) != "None"
  {
    RoundTrip(h);
    PrintIsTidy(h);
    if forall t <- h :: Lossless(t) {
      forall t | t in h
        ensures Reads(t)
      {
        LosslessReads(t);
      }
    }
    if AllRead(h) {
      AllKeptIff(h);
    }
    if h != [] && Reserved(Print(h)) {
      ReservedIsOneName(h);
      AllKeptIff(h);
    }
  }

  lemma SmallNumbers()
    ensures Value("1") == 1 && ParseInt("2") == Some(2) && Value("5") == 5 && ParseInt("3") == Some(3)
  {
    assert "1"[..0] == "2"[..0] == "3"[..0] == "5"[..0] == "";
  }

  lemma UpAndDown()
    ensures
      var up, down := Span("1", "2"), Span("5", "3");
      && WellFormedRange(up) && Readable(up) && RangeNumerals(up) == ["1", "2"]
      && WellFormedRange(down) && Readable(down) && RangeNumerals(down) == []
  {
    SmallNumbers();
    assert Decimal(1) == "1" && Decimal(2) == "2";
    assert Counting(1, 2, 1) == ["1"] + Counting(2, 2, 1) && Counting(2, 2, 1) == ["2"] + Counting(3, 2, 1);
  }

  lemma TwoNames(a: string, b: string)
    ensures Product([a, b], [""]) == [a, b]
  {
    assert [a, b][1..] == [b] && [b][1..] == [] && a + "" == a && b + "" == b;
    assert Product([b], [""]) == PrefixAll(b, [""]) + [];
    assert PrefixAll(a, [""]) == [a] && PrefixAll(b, [""]) == [b];
  }

  lemma NumeralsOfTwo(ranges: seq<Range>)
    requires |ranges| == 2 && (forall r <- ranges :: WellFormedRange(r)) && AllReadable(ranges)
    ensures Numerals(ranges) == RangeNumerals(ranges[0]) + RangeNumerals(ranges[1])
  {
    var last := ranges[1..];
    assert Numerals(last[1..]) == [];
    assert Numerals(last) == RangeNumerals(ranges[1]);
  }

  /** A range is dropped without a trace beside one that is kept. */
  lemma ARangeIsLost(text: string)
    requires Plain(text)
    ensures
      var t := Group(text, [Span("1", "2"), Span("5", "3")], Name(""));
      WellFormedTail(t) && Meaning(t) == Ok([text + "1", text + "2"])
  {
    var up, down := Span("1", "2"), Span("5", "3");
    UpAndDown();
    PrintedGroup(up, [down]);
    assert [up] + [down] == [up, down];
    NumeralsOfTwo([up, down]);
    MeaningOfTwoNames(text, [up, down], "1", "2");
  }

  lemma MeaningOfTwoNames(text: string, ranges: seq<Range>, a: string, b: string)
    requires WellFormedTail(Group(text, ranges, Name("")))
    requires AllReadable(ranges) && Numerals(ranges) == [a, b]
    ensures Meaning(Group(text, ranges, Name(""))) == Ok([text + a, text + b])
  {
    MeaningOfGroup(Group(text, ranges, Name("")));
    TwoNames(a, b);
    TwoPrefixed(text, a, b);
  }

  lemma TwoPrefixed(text: string, a: string, b: string)
    ensures Emitted(text, [a, b], Name("")) == Ok([text + a, text + b])
  {
    TwoNames(a, b);
    assert PrefixAll(text, [a, b]) == [text + a, text + b];
  }

  lemma PrintedGroup(r: Range, more: seq<Range>)
    requires r.Span?
    ensures PrintRanges([r] + more) != ""
  {
    assert PrintEach([r] + more)[0] == r.lo + "-" + r.hi;
    assert PrintEach([r] + more)[0] != "";
  }

  /** One range that cannot be read fails the whole list, whatever else is in it. */
  lemma OneRangeFailsAll(h: seq<Term>, t: Term, r: Range)
    requires WellFormed(h) && t in h && t.Group? && r in t.ranges && !Readable(r)
    ensures Expand(Print(h)).Err?
  {
    assert !Reads(t);
    RaisesIff(h);
  }

  /** Up to 4300 digits are read, in either sign. */
  lemma ManyDigitsAreRead(digits: string)
    requires AllDigits(digits) && 0 < |digits| <= 4300
    ensures ParseInt(digits) == Some(Value(digits)) && ParseInt("-" + digits) == Some(0 - Value(digits))
  {
    var s := "-" + digits;
    assert s[0] == '-' && s[1..] == digits;
    assert s[0] in s && !IsDigit(s[0]);
  }

  /** More digits than are read make a range one of these, on either side and however many of them are zero. */
  lemma TooManyDigits(digits: string, other: string)
    requires AllDigits(digits) && |digits| > 4300
    ensures !Readable(Span(digits, other)) && !Readable(Span(other, digits)) && !Readable(Span(other, "-" + digits))
  {
    var s := "-" + digits;
    assert s[0] == '-' && s[1..] == digits && s[0] in s && !IsDigit(s[0]);
    assert digits[0] in digits && IsDigit(digits[0]);
  }

  /** A third number, or a side left out, makes a range one of these; a second hyphen alone does not. */
  lemma UnreadableRanges()
    ensures !Readable(Span("1", "2-3")) && !Readable(Span("", "3")) && !Readable(Span("1", ""))
    ensures !Readable(Span("1", "-"))
    ensures Readable(Span("1", "-3")) && RangeNumerals(Span("1", "-3")) == []
  {
    assert "2-3"[1] in "2-3" && !IsDigit("2-3"[1]);
    assert "-3"[1..] == "3";
    SmallNumbers();
  }
}
