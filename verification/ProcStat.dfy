/** CPU ticks of one process, parsed from its procfs stat line. */
module ProcStat {
  import opened Options
  import opened Words

  type Octets = seq<Byte>

  const SPACE: Byte := 32
  const OPEN: Byte := 40
  const CLOSE: Byte := 41

  // ---------- what the line means ----------

  predicate Decimal(token: Octets) {
    forall i :: 0 <= i < |token| ==> 48 <= token[i] <= 57
  }

  function Value(digits: Octets): nat
    requires Decimal(digits)
  {
    if digits == [] then 0
    else 10 * Value(digits[..|digits| - 1]) + digits[|digits| - 1] as nat - 48
  }

  predicate IsCount(token: Octets) {
    token != [] && Decimal(token) && Value(token) <= U64_MAX
  }

  predicate AllCounts(tokens: seq<Octets>) {
    forall i :: 0 <= i < |tokens| ==> IsCount(tokens[i])
  }

  function SaturatingTotal(tokens: seq<Octets>): U64
    requires AllCounts(tokens)
  {
    if tokens == [] then 0
    else SaturatingAdd(SaturatingTotal(tokens[..|tokens| - 1]), Value(tokens[|tokens| - 1]))
  }

  /** utime, stime, cutime and cstime are fields 14 to 17; field 3 comes first. */
  function AccountedTicks(fields: seq<Octets>): Option<U64> {
    if |fields| >= 15 && AllCounts(fields[11..15]) then Some(SaturatingTotal(fields[11..15])) else None
  }

  function Joined(fields: seq<Octets>): Octets {
    if fields == [] then []
    else if |fields| == 1 then fields[0]
    else fields[0] + [SPACE] + Joined(fields[1..])
  }

  function StatLine(head: Octets, comm: Octets, fields: seq<Octets>): Octets {
    head + [OPEN] + comm + [CLOSE] + [SPACE] + Joined(fields)
  }

  /** A field as the kernel prints it after the command name. */
  predicate IsField(f: Octets) {
    f != [] && forall i :: 0 <= i < |f| ==> f[i] != SPACE && f[i] != CLOSE
  }

  // ---------- what the parser reads from any text ----------

  function LastClose(text: Octets): (r: int)
    ensures -1 <= r < |text|
  {
    if text == [] then -1
    else if text[|text| - 1] == CLOSE then |text| - 1
    else LastClose(text[..|text| - 1])
  }

  function TokenLength(s: Octets): (n: nat)
    ensures n <= |s|
  {
    if s == [] || s[0] == SPACE then 0 else 1 + TokenLength(s[1..])
  }

  function AfterSpaces(s: Octets): (r: Octets)
    ensures |r| <= |s| && (s != [] && s[0] == SPACE ==> |r| < |s|)
  {
    if s == [] || s[0] != SPACE then s else AfterSpaces(s[1..])
  }

  function Tokens(s: Octets): seq<Octets>
    decreases |s|
  {
    if s == [] then [] else
      var n := TokenLength(s);
      [s[..n]] + Tokens(AfterSpaces(s[n..]))
  }

  function Parsed(text: Octets): Option<U64> {
    var p := LastClose(text);
    if p < 0 || p + 1 == |text| || text[p + 1] != SPACE then None
    else AccountedTicks(Tokens(text[p + 2..]))
  }

  // ---------- the parser ----------

  lemma {:induction false} ValueOfPrefix(digits: Octets, k: nat)
    requires k <= |digits| && Decimal(digits)
    ensures Value(digits[..k]) <= Value(digits)
    decreases |digits|
  {
    if k < |digits| {
      var shorter := digits[..|digits| - 1];
      ValueOfPrefix(shorter, k);
      assert shorter[..k] == digits[..k];
    } else {
      assert digits[..k] == digits;
    }
  }

  /** The guard `value > (UINT64_MAX - number) / 10` never lets a value wrap and
      never refuses one that fits. */
  method ParseCount(token: Octets) returns (r: Option<U64>)
    ensures r == if IsCount(token) then Some(Value(token)) else None
  {
    if token == [] {
      return None;
    }
    var value: U64 := 0;
    for k := 0 to |token|
      invariant Decimal(token[..k])
      invariant value == Value(token[..k])
    {
      if !(48 <= token[k] <= 57) {
        return None;
      }
      var number := token[k] as nat - 48;
      assert token[..k + 1] == token[..k] + [token[k]];
      assert token[..k + 1][..k] == token[..k];
      if value > (U64_MAX - number) / 10 {
        if Decimal(token) {
          ValueOfPrefix(token, k + 1);
        }
        return None;
      }
      value := value * 10 + number;
    }
    assert token[..|token|] == token;
    r := Some(value);
  }

  method FindLastClose(text: Octets) returns (p: int)
    ensures p == LastClose(text)
  {
    p := |text| - 1;
    assert text[..|text|] == text;
    while p >= 0 && text[p] != CLOSE
      invariant -1 <= p < |text|
      invariant LastClose(text[..p + 1]) == LastClose(text)
    {
      assert text[..p + 1][..p] == text[..p];
      p := p - 1;
    }
  }

  lemma SuffixStep(text: Octets, k: nat)
    requires k < |text|
    ensures TokenLength(text[k..]) == if text[k] == SPACE then 0 else 1 + TokenLength(text[k + 1..])
    ensures AfterSpaces(text[k..]) == if text[k] == SPACE then AfterSpaces(text[k + 1..]) else text[k..]
  {
    assert text[k..][1..] == text[k + 1..];
  }

  /** One token and the spaces after it, as in the body of the field loop. */
  method NextToken(text: Octets, start: nat) returns (end: nat, next: nat)
    requires start < |text|
    ensures start <= end <= next <= |text| && start < next
    ensures text[start..end] == text[start..][..TokenLength(text[start..])]
    ensures text[next..] == AfterSpaces(text[start..][TokenLength(text[start..])..])
  {
    end := start;
    while end < |text| && text[end] != SPACE
      invariant start <= end <= |text|
      invariant TokenLength(text[start..]) == end - start + TokenLength(text[end..])
    {
      SuffixStep(text, end);
      end := end + 1;
    }
    next := end;
    while next < |text| && text[next] == SPACE
      invariant end <= next <= |text|
      invariant AfterSpaces(text[end..]) == AfterSpaces(text[next..])
    {
      SuffixStep(text, next);
      next := next + 1;
    }
    assert text[start..][end - start..] == text[end..];
  }

  /** What the field loop still has to do: `tokens` are left, the first of them
      is field `field`, and `accounted` has been summed. */
  function FieldLoop(tokens: seq<Octets>, field: nat, accounted: U64): Option<U64> {
    if field > 17 then Some(accounted)
    else if tokens == [] then None
    else if field < 14 then FieldLoop(tokens[1..], field + 1, accounted)
    else if IsCount(tokens[0]) then FieldLoop(tokens[1..], field + 1, SaturatingAdd(accounted, Value(tokens[0])))
    else None
  }

  lemma {:induction false} FieldLoopFrom(fields: seq<Octets>, n: nat)
    requires n <= |fields| && n <= 15
    requires n > 11 ==> AllCounts(fields[11..n])
    ensures FieldLoop(fields[n..], n + 3, if n > 11 then SaturatingTotal(fields[11..n]) else 0) == AccountedTicks(fields)
    decreases 15 - n
  {
    if n < 15 && n < |fields| {
      assert fields[n..][1..] == fields[n + 1..];
      if n >= 11 {
        var more := fields[11..n + 1];
        assert more[..n - 11] == fields[11..n] && more[n - 11] == fields[n];
        if IsCount(fields[n]) {
          FieldLoopFrom(fields, n + 1);
        } else if |fields| >= 15 {
          assert fields[11..15][n - 11] == fields[n];
        }
      } else {
        FieldLoopFrom(fields, n + 1);
      }
    }
  }

  method ParseProcStatTicks(text: Octets) returns (ticks: Option<U64>)
    ensures ticks == Parsed(text)
  {
    var p := FindLastClose(text);
    if p < 0 || p + 1 == |text| || text[p + 1] != SPACE {
      return None;
    }
    var cursor, field, accounted: U64 := p + 2, 3, 0;
    FieldLoopFrom(Tokens(text[cursor..]), 0);
    while cursor < |text| && field <= 17
      invariant cursor <= |text| && field >= 3
      invariant FieldLoop(Tokens(text[cursor..]), field, accounted) == Parsed(text)
    {
      var end, next := NextToken(text, cursor);
      assert Tokens(text[cursor..]) == [text[cursor..end]] + Tokens(text[next..]);
      if 14 <= field {
        var value := ParseCount(text[cursor..end]);
        if value.None? {
          return None;
        }
        accounted := SaturatingAdd(accounted, value.value);
      }
      cursor, field := next, field + 1;
    }
    if field <= 17 {
      return None;
    }
    ticks := Some(accounted);
  }

  // ---------- printed lines ----------

  lemma {:induction false} TokenOfField(f: Octets, rest: Octets)
    requires forall i :: 0 <= i < |f| ==> f[i] != SPACE
    requires rest == [] || rest[0] == SPACE
    ensures TokenLength(f + rest) == |f|
  {
    if f != [] {
      TokenOfField(f[1..], rest);
      assert (f + rest)[1..] == f[1..] + rest;
    } else {
      assert f + rest == rest;
    }
  }

  lemma {:induction false} TokensOfJoined(fields: seq<Octets>)
    requires forall i :: 0 <= i < |fields| ==> IsField(fields[i])
    ensures Tokens(Joined(fields)) == fields
  {
    if |fields| == 1 {
      TokenOfField(fields[0], []);
      assert fields[0] + [] == fields[0];
      assert Tokens(fields[0][|fields[0]|..]) == [];
    } else if |fields| > 1 {
      var f, more := fields[0], Joined(fields[1..]);
      TokenOfField(f, [SPACE] + more);
      assert Joined(fields) == f + ([SPACE] + more);
      var tail := Joined(fields)[|f|..];
      assert tail == [SPACE] + more && tail[1..] == more;
      assert more[0] == fields[1][0];
      assert AfterSpaces(tail) == AfterSpaces(more) == more;
      TokensOfJoined(fields[1..]);
      assert [Joined(fields)[..|f|]] + fields[1..] == fields;
    }
  }

  lemma {:induction false} NoCloseInJoined(fields: seq<Octets>)
    requires forall i :: 0 <= i < |fields| ==> IsField(fields[i])
    ensures CLOSE !in Joined(fields)
  {
    if |fields| > 1 {
      NoCloseInJoined(fields[1..]);
    }
  }

  lemma {:induction false} LastCloseBefore(front: Octets, tail: Octets)
    requires CLOSE !in tail
    ensures LastClose(front + [CLOSE] + tail) == |front|
  {
    var text := front + [CLOSE] + tail;
    if tail != [] {
      var shorter := tail[..|tail| - 1];
      assert text[..|text| - 1] == front + [CLOSE] + shorter;
      assert text[|text| - 1] == tail[|tail| - 1];
      LastCloseBefore(front, shorter);
    }
  }

  /** Whatever bytes the command name holds, the ticks are fields 14 to 17, and
      the line is refused exactly when one of them is not a 64-bit count. */
  lemma {:induction false} ParsedStatLine(head: Octets, comm: Octets, fields: seq<Octets>)
    requires forall i :: 0 <= i < |fields| ==> IsField(fields[i])
    ensures Parsed(StatLine(head, comm, fields)) == AccountedTicks(fields)
  {
    var front, tail := head + [OPEN] + comm, [SPACE] + Joined(fields);
    var text := StatLine(head, comm, fields);
    NoCloseInJoined(fields);
    LastCloseBefore(front, tail);
    assert text == front + [CLOSE] + tail;
    assert text[|front| + 2..] == Joined(fields);
    TokensOfJoined(fields);
  }

  lemma AccountedTicksAreTheSum(fields: seq<Octets>)
    requires |fields| >= 15 && AllCounts(fields[11..15])
    ensures AccountedTicks(fields) ==
            Some(Min(Value(fields[11]) + Value(fields[12]) + Value(fields[13]) + Value(fields[14]), U64_MAX))
  {
    var four := fields[11..15];
    assert four[..3][..2] == four[..2] && four[..2][..1] == four[..1] && four[..1][..0] == [];
    assert SaturatingTotal(four[..1]) == SaturatingAdd(0, Value(four[0]));
    assert SaturatingTotal(four[..2]) == SaturatingAdd(SaturatingTotal(four[..1]), Value(four[1]));
    assert SaturatingTotal(four[..3]) == SaturatingAdd(SaturatingTotal(four[..2]), Value(four[2]));
  }

  // ---------- printed numbers ----------

  /** A number as "%llu" prints it. */
  function DecimalText(n: nat): Octets {
    (if n < 10 then [] else DecimalText(n / 10)) + [(48 + n % 10) as Byte]
  }

  lemma {:induction false} PrintedIsRead(n: nat)
    ensures var text := DecimalText(n); Decimal(text) && Value(text) == n && IsField(text)
  {
    var text := DecimalText(n);
    if n >= 10 {
      PrintedIsRead(n / 10);
      assert text[..|text| - 1] == DecimalText(n / 10);
    } else {
      assert text[..0] == [];
    }
  }

  lemma PrintedIsCount(n: U64)
    ensures IsCount(DecimalText(n)) && Value(DecimalText(n)) == n
  {
    PrintedIsRead(n);
  }

  lemma FourCounts(fields: seq<Octets>)
    requires |fields| >= 15 && IsCount(fields[11]) && IsCount(fields[12]) && IsCount(fields[13]) && IsCount(fields[14])
    ensures AllCounts(fields[11..15])
  {
    var four := fields[11..15];
    assert four[0] == fields[11] && four[1] == fields[12] && four[2] == fields[13] && four[3] == fields[14];
  }

  predicate PrintsTicks(fields: seq<Octets>, utime: U64, stime: U64, cutime: U64, cstime: U64) {
    && |fields| >= 15
    && fields[11] == DecimalText(utime) && fields[12] == DecimalText(stime)
    && fields[13] == DecimalText(cutime) && fields[14] == DecimalText(cstime)
  }

  lemma TicksOfCounts(fields: seq<Octets>, utime: U64, stime: U64, cutime: U64, cstime: U64)
    requires |fields| >= 15 && IsCount(fields[11]) && IsCount(fields[12]) && IsCount(fields[13]) && IsCount(fields[14])
    requires Value(fields[11]) == utime && Value(fields[12]) == stime
    requires Value(fields[13]) == cutime && Value(fields[14]) == cstime
    ensures AccountedTicks(fields) == Some(Min(utime + stime + cutime + cstime, U64_MAX))
  {
    FourCounts(fields);
    AccountedTicksAreTheSum(fields);
  }

  lemma TicksOfPrinted(fields: seq<Octets>, utime: U64, stime: U64, cutime: U64, cstime: U64)
    requires PrintsTicks(fields, utime, stime, cutime, cstime)
    ensures AccountedTicks(fields) == Some(Min(utime + stime + cutime + cstime, U64_MAX))
  {
    PrintedIsCount(utime);
    PrintedIsCount(stime);
    PrintedIsCount(cutime);
    PrintedIsCount(cstime);
    TicksOfCounts(fields, utime, stime, cutime, cstime);
  }

  /** The four tick counts the kernel prints come out as their sum, clipped once,
      whatever the command name and the other fields are. */
  lemma PrintedTicks(head: Octets, comm: Octets, fields: seq<Octets>, utime: U64, stime: U64, cutime: U64, cstime: U64)
    requires forall i :: 0 <= i < |fields| ==> IsField(fields[i])
    requires PrintsTicks(fields, utime, stime, cutime, cstime)
    ensures Parsed(StatLine(head, comm, fields)) == Some(Min(utime + stime + cutime + cstime, U64_MAX))
  {
    ParsedStatLine(head, comm, fields);
    TicksOfPrinted(fields, utime, stime, cutime, cstime);
  }
}
