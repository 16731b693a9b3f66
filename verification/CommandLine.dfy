/**
 The command line between userapp.c, which prints it, and mp2_write of mp2.c, which parses it.
 fprintf, strsep, kstrtoint and kstrtoul are modelled by what they are documented to do.
 */
module CommandLine {
  import opened Wrappers
  import opened Words

  datatype Command =
    | Register(pid: u32, period: u64, processingTime: u64)
    | Yield(pid: u32)
    | Deregister(pid: u32)

  // ---------------------------------------------------------------- printing

  predicate IsDigit(c: char) {
    '0' <= c <= '9'
  }

  predicate AllDigits(s: string) {
    forall i | 0 <= i < |s| :: IsDigit(s[i])
  }

  function DigitValue(c: char): nat
    requires IsDigit(c)
  {
    c as int - '0' as int
  }

  function Digit(d: nat): (c: char)
    requires d < 10
    ensures IsDigit(c) && DigitValue(c) == d
  {
    '0' + d as char
  }

  /** %lu */
  function PrintUnsigned(n: nat): (s: string)
    ensures s != [] && AllDigits(s)
  {
    if n < 10 then [Digit(n)] else PrintUnsigned(n / 10) + [Digit(n % 10)]
  }

  /** %d */
  function PrintSigned(n: int): string {
    if n < 0 then "-" + PrintUnsigned(-n) else PrintUnsigned(n)
  }

  function RegisterLine(pid: i32, period: u64, processingTime: u64): string {
    "R," + PrintSigned(pid) + "," + PrintUnsigned(period) + "," + PrintUnsigned(processingTime) + "\n"
  }

  function YieldLine(pid: i32): string {
    "Y," + PrintSigned(pid) + "\n"
  }

  function DeregisterLine(pid: i32): string {
    "D," + PrintSigned(pid) + "\n"
  }

  // ---------------------------------------------------------------- numbers

  /** The value of a string of decimal digits. */
  function Value(s: string): nat
    requires AllDigits(s)
  {
    if s == [] then 0 else Value(s[..|s| - 1]) * 10 + DigitValue(s[|s| - 1])
  }

  /** One or more digits, then perhaps one newline, with a value up to `limit`. */
  function ParseDigits(s: string, limit: nat): Option<nat> {
    var t := if s != [] && s[|s| - 1] == '\n' then s[..|s| - 1] else s;
    if t == [] || !AllDigits(t) then None
    else if Value(t) <= limit then Some(Value(t))
    else None
  }

  function SkipPlus(s: string): string {
    if s != [] && s[0] == '+' then s[1..] else s
  }

  /** kstrtoul(s, 10, ..) */
  function Kstrtoul(s: string): Option<u64> {
    ParseDigits(SkipPlus(s), 0xFFFF_FFFF_FFFF_FFFF)
  }

  /** kstrtoint(s, 10, ..) */
  function Kstrtoint(s: string): Option<i32> {
    if s != [] && s[0] == '-' then
      var v := ParseDigits(s[1..], 0x8000_0000);
      if v.Some? then Some(-(v.value as int)) else None
    else
      ParseDigits(SkipPlus(s), 0x7FFF_FFFF)
  }

  /** What a signed result stored through &pid leaves in the unsigned pid. */
  function AsUnsigned(n: i32): u32 {
    n % 0x1_0000_0000
  }

  // ---------------------------------------------------------------- parsing

  function FirstComma(s: string): (i: nat)
    ensures i <= |s| && (i < |s| ==> s[i] == ',') && forall j | 0 <= j < i :: s[j] != ','
  {
    if s == [] || s[0] == ',' then 0 else 1 + FirstComma(s[1..])
  }

  /** The tokens strsep yields. */
  function Split(s: string): (ts: seq<string>)
    ensures ts != []
    decreases |s|
  {
    var i := FirstComma(s);
    if i == |s| then [s] else [s[..i]] + Split(s[i + 1..])
  }

  function UpToNul(s: string): string {
    if s == [] || s[0] == '\0' then [] else [s[0]] + UpToNul(s[1..])
  }

  /** The C string in the buffer once a final newline has been overwritten with a NUL. */
  function Text(buf: string): string {
    if buf != [] && buf[|buf| - 1] == '\n' then UpToNul(buf[..|buf| - 1]) else UpToNul(buf)
  }

  /** Invalid is -EINVAL; Unset is a command whose arguments were never assigned. */
  datatype Parse = Run(command: Command) | Invalid | Unset

  /** The arguments: each absent, or a token that must convert. */
  datatype Arguments = Arguments(op: string, pid: Option<u32>, period: Option<u64>, processingTime: Option<u64>)

  /** Token number argc goes into its argument, or is refused. */
  function Assign(a: Arguments, argc: nat, token: string): Option<Arguments> {
    if argc == 0 then Some(a.(op := token))
    else if argc == 1 then
      var v := Kstrtoint(token);
      if v.Some? then Some(a.(pid := Some(AsUnsigned(v.value)))) else None
    else if argc == 2 then
      var v := Kstrtoul(token);
      if v.Some? then Some(a.(period := v)) else None
    else if argc == 3 then
      var v := Kstrtoul(token);
      if v.Some? then Some(a.(processingTime := v)) else None
    else None
  }

  /** The arguments after the first n tokens. */
  function Convert(ts: seq<string>, n: nat): Option<Arguments>
    requires n <= |ts|
  {
    if n == 0 then Some(Arguments("", None, None, None))
    else
      var a := Convert(ts, n - 1);
      if a.Some? then Assign(a.value, n - 1, ts[n - 1]) else None
  }

  function Switch(a: Arguments): Parse {
    if a.op == [] then Invalid
    else match a.op[0]
      case 'R' =>
        if a.pid.Some? && a.period.Some? && a.processingTime.Some?
        then Run(Register(a.pid.value, a.period.value, a.processingTime.value)) else Unset
      case 'Y' => if a.pid.Some? then Run(Yield(a.pid.value)) else Unset
      case 'D' => if a.pid.Some? then Run(Deregister(a.pid.value)) else Unset
      case _ => Invalid
  }

  function ParseLine(buf: string): Parse {
    var ts := Split(Text(buf));
    var a := Convert(ts, |ts|);
    if a.Some? then Switch(a.value) else Invalid
  }

  lemma {:induction false} RefusedStaysRefused(ts: seq<string>, m: nat, n: nat)
    requires m <= n <= |ts| && Convert(ts, m) == None
    ensures Convert(ts, n) == None
  {
    if m == n {
    } else {
      RefusedStaysRefused(ts, m, n - 1);
    }
  }

  /** The buffer holds a NUL-terminated string once its final newline is overwritten. */
  predicate Terminated(buf: string) {
    buf != [] && (buf[|buf| - 1] == '\n' || '\0' in buf)
  }

  lemma SplitHead(s: string)
    ensures Split(s)[0] == s[..FirstComma(s)]
    ensures FirstComma(s) < |s| ==> Split(s)[1..] == Split(s[FirstComma(s) + 1..])
    ensures FirstComma(s) == |s| ==> |Split(s)| == 1
  {
  }

  /** What is left of the line yields the tokens from number argc on: one step of strsep. */
  lemma NextToken(all: seq<string>, argc: nat, rest: string)
    requires argc < |all| && Split(rest) == all[argc..]
    ensures all[argc] == rest[..FirstComma(rest)]
    ensures if FirstComma(rest) < |rest|
            then argc + 1 < |all| && Split(rest[FirstComma(rest) + 1..]) == all[argc + 1..]
            else argc + 1 == |all|
  {
    SplitHead(rest);
    assert all[argc..][0] == all[argc] && all[argc..][1..] == all[argc + 1..];
  }

  /** mp2_write at offset 0, up to the call it makes. */
  method Mp2Write(buf: string) returns (p: Parse)
    requires Terminated(buf)
    ensures p == ParseLine(buf)
  {
    ghost var all := Split(Text(buf));
    var rest := Some(Text(buf));
    var argc := 0;
    var a := Arguments("", None, None, None);
    while rest.Some?
      invariant argc <= |all|
      invariant if rest.Some? then argc < |all| && Split(rest.value) == all[argc..] else argc == |all|
      invariant Convert(all, argc) == Some(a)
      decreases |all| - argc
    {
      var i := FirstComma(rest.value);
      var token := rest.value[..i];
      NextToken(all, argc, rest.value);
      var r := Assign(a, argc, token);
      if r == None {
        RefusedStaysRefused(all, argc + 1, |all|);
        return Invalid;
      }
      a := r.value;
      if i < |rest.value| {
        rest := Some(rest.value[i + 1..]);
      } else {
        rest := None;
      }
      argc := argc + 1;
    }
    p := Switch(a);
  }

  // ---------------------------------------------------------------- round trip

  lemma {:induction false} ValueOfPrinted(n: nat)
    ensures Value(PrintUnsigned(n)) == n
  {
    if n >= 10 {
      ValueOfPrinted(n / 10);
      var s := PrintUnsigned(n);
      assert s[..|s| - 1] == PrintUnsigned(n / 10);
    } else {
      assert PrintUnsigned(n)[..0] == [];
    }
  }

  lemma ParsePrintedUnsigned(n: nat, limit: nat)
    requires n <= limit
    ensures ParseDigits(PrintUnsigned(n), limit) == Some(n)
    ensures SkipPlus(PrintUnsigned(n)) == PrintUnsigned(n)
  {
    ValueOfPrinted(n);
    var s := PrintUnsigned(n);
    assert IsDigit(s[0]) && IsDigit(s[|s| - 1]);
  }

  lemma ParsePrintedSigned(n: i32)
    ensures Kstrtoint(PrintSigned(n)) == Some(n)
  {
    var m: int := n;
    if m < 0 {
      ParsePrintedUnsigned(-m, 0x8000_0000);
      assert PrintSigned(n)[1..] == PrintUnsigned(-m);
    } else {
      ParsePrintedUnsigned(m, 0x7FFF_FFFF);
      assert IsDigit(PrintUnsigned(m)[0]);
    }
  }

  /** No character of s is a comma or a NUL. */
  predicate Plain(s: string) {
    forall i | 0 <= i < |s| :: s[i] != ',' && s[i] != '\0'
  }

  lemma PrintedPlain(n: int)
    ensures Plain(PrintSigned(n))
    ensures n >= 0 ==> Plain(PrintUnsigned(n))
  {
    var s := PrintUnsigned(if n < 0 then -n else n);
    assert forall i | 0 <= i < |s| :: IsDigit(s[i]);
  }

  lemma {:induction false} FirstCommaAt(s: string, t: string)
    requires Plain(s)
    ensures FirstComma(s + [','] + t) == |s|
    ensures FirstComma(s) == |s|
  {
    if s == [] {
    } else {
      assert (s + [','] + t)[1..] == s[1..] + [','] + t;
      FirstCommaAt(s[1..], t);
    }
  }

  lemma SplitOne(s: string)
    requires Plain(s)
    ensures Split(s) == [s]
  {
    FirstCommaAt(s, "");
  }

  lemma SplitMore(s: string, t: string)
    requires Plain(s)
    ensures Split(s + [','] + t) == [s] + Split(t)
  {
    FirstCommaAt(s, t);
    var u := s + [','] + t;
    assert u[..|s|] == s && u[|s| + 1..] == t;
  }

  lemma {:induction false} NoNul(s: string)
    requires '\0' !in s
    ensures UpToNul(s) == s
  {
    if s == [] {
    } else {
      NoNul(s[1..]);
    }
  }

  lemma TextOfLine(s: string)
    requires '\0' !in s
    ensures Text(s + "\n") == s && Terminated(s + "\n")
  {
    assert (s + "\n")[..|s|] == s;
    NoNul(s);
  }

  /** The line without its newline, bracketed as strsep takes it apart. */
  function Body(p: string, q: string, r: string): string {
    "R" + [','] + (p + [','] + (q + [','] + r))
  }

  lemma LineOfBody(p: string, q: string, r: string)
    ensures "R," + p + "," + q + "," + r + "\n" == Body(p, q, r) + "\n"
  {
    var a := "R," + p + "," + q + "," + r;
    assert "R," == "R" + [','];
    assert a == Body(p, q, r);
  }

  lemma SplitOnto(s: string, t: string, ts: seq<string>)
    requires Plain(s) && Split(t) == ts
    ensures Split(s + [','] + t) == [s] + ts
  {
    SplitMore(s, t);
  }

  lemma Four<T>(a: T, b: T, c: T, d: T)
    ensures [a] + ([b] + ([c] + [d])) == [a, b, c, d]
  {
  }

  lemma BodyTokens(p: string, q: string, r: string)
    requires Plain(p) && Plain(q) && Plain(r)
    ensures Split(Body(p, q, r)) == ["R", p, q, r]
  {
    SplitOne(r);
    SplitOnto(q, r, [r]);
    SplitOnto(p, q + [','] + r, [q] + [r]);
    SplitOnto("R", p + [','] + (q + [','] + r), [p] + ([q] + [r]));
    Four("R", p, q, r);
  }

  lemma RegisterTokens(p: string, q: string, r: string)
    requires Plain(p) && Plain(q) && Plain(r)
    ensures var line := "R," + p + "," + q + "," + r + "\n";
      Terminated(line) && Split(Text(line)) == ["R", p, q, r]
  {
    LineOfBody(p, q, r);
    BodyTokens(p, q, r);
    TextOfLine(Body(p, q, r));
  }

  lemma ConvertTwo(ts: seq<string>)
    requires |ts| >= 2 && Kstrtoint(ts[1]).Some?
    ensures Convert(ts, 2) == Some(Arguments(ts[0], Some(AsUnsigned(Kstrtoint(ts[1]).value)), None, None))
  {
    assert Convert(ts, 1) == Some(Arguments(ts[0], None, None, None));
  }

  lemma ConvertFour(ts: seq<string>)
    requires |ts| == 4 && Kstrtoint(ts[1]).Some? && Kstrtoul(ts[2]).Some? && Kstrtoul(ts[3]).Some?
    ensures Convert(ts, 4)
            == Some(Arguments(ts[0], Some(AsUnsigned(Kstrtoint(ts[1]).value)), Kstrtoul(ts[2]), Kstrtoul(ts[3])))
  {
    ConvertTwo(ts);
    assert Convert(ts, 3) == Some(Arguments(ts[0], Some(AsUnsigned(Kstrtoint(ts[1]).value)), Kstrtoul(ts[2]), None));
  }

  lemma RegisterOf(line: string, p: string, q: string, r: string)
    requires Split(Text(line)) == ["R", p, q, r]
    requires Kstrtoint(p).Some? && Kstrtoul(q).Some? && Kstrtoul(r).Some?
    ensures ParseLine(line)
            == Run(Register(AsUnsigned(Kstrtoint(p).value), Kstrtoul(q).value, Kstrtoul(r).value))
  {
    ConvertFour(["R", p, q, r]);
  }

  /** Whatever a registration prints is parsed to the same numbers; a negative pid wraps to unsigned. */
  lemma RegisterRoundTrip(pid: i32, period: u64, processingTime: u64)
    ensures Terminated(RegisterLine(pid, period, processingTime))
    ensures ParseLine(RegisterLine(pid, period, processingTime))
            == Run(Register(AsUnsigned(pid), period, processingTime))
  {
    var p, q, r := PrintSigned(pid), PrintUnsigned(period), PrintUnsigned(processingTime);
    PrintedPlain(pid);
    PrintedPlain(period);
    PrintedPlain(processingTime);
    RegisterTokens(p, q, r);
    ParsePrintedSigned(pid);
    ParsePrintedUnsigned(period, 0xFFFF_FFFF_FFFF_FFFF);
    ParsePrintedUnsigned(processingTime, 0xFFFF_FFFF_FFFF_FFFF);
    RegisterOf(RegisterLine(pid, period, processingTime), p, q, r);
  }

  lemma ShortTokens(op: string, p: string)
    requires Plain(op) && Plain(p)
    ensures Terminated(op + [','] + p + "\n") && Split(Text(op + [','] + p + "\n")) == [op, p]
  {
    TextOfLine(op + [','] + p);
    SplitOne(p);
    SplitOnto(op, p, [p]);
    assert [op] + [p] == [op, p];
  }

  /** A one-argument command, whatever its letter, comes back as that letter and the number. */
  lemma ShortLine(op: string, pid: i32, line: string)
    requires Plain(op) && line == op + [','] + PrintSigned(pid) + "\n"
    ensures Terminated(line) && |Split(Text(line))| == 2
    ensures Convert(Split(Text(line)), 2) == Some(Arguments(op, Some(AsUnsigned(pid)), None, None))
  {
    var p := PrintSigned(pid);
    PrintedPlain(pid);
    ShortTokens(op, p);
    ParsePrintedSigned(pid);
    ConvertTwo([op, p]);
  }

  lemma ShortLineShape(op: string, p: string)
    ensures op + "," + p + "\n" == op + [','] + p + "\n"
    ensures op == "Y" ==> "Y," + p + "\n" == op + [','] + p + "\n"
    ensures op == "D" ==> "D," + p + "\n" == op + [','] + p + "\n"
  {
    assert "Y," == "Y" + [','] && "D," == "D" + [','];
  }

  lemma YieldRoundTrip(pid: i32)
    ensures Terminated(YieldLine(pid)) && ParseLine(YieldLine(pid)) == Run(Yield(AsUnsigned(pid)))
  {
    ShortLineShape("Y", PrintSigned(pid));
    ShortLine("Y", pid, YieldLine(pid));
  }

  lemma DeregisterRoundTrip(pid: i32)
    ensures Terminated(DeregisterLine(pid)) && ParseLine(DeregisterLine(pid)) == Run(Deregister(AsUnsigned(pid)))
  {
    ShortLineShape("D", PrintSigned(pid));
    ShortLine("D", pid, DeregisterLine(pid));
  }

  // ---------------------------------------------------------------- every line

  lemma {:induction false} UpToNulEnds(s: string)
    ensures UpToNul(s) <= s && '\0' !in UpToNul(s)
    ensures |UpToNul(s)| < |s| ==> s[|UpToNul(s)|] == '\0'
  {
    if s == [] || s[0] == '\0' {
    } else {
      UpToNulEnds(s[1..]);
    }
  }

  /** The text ends at the first NUL, or before the final newline. */
  lemma TextEnds(buf: string)
    ensures var b := if buf != [] && buf[|buf| - 1] == '\n' then buf[..|buf| - 1] else buf;
      && Text(buf) <= b && '\0' !in Text(buf)
      && (|Text(buf)| < |b| ==> b[|Text(buf)|] == '\0')
  {
    UpToNulEnds(if buf != [] && buf[|buf| - 1] == '\n' then buf[..|buf| - 1] else buf);
  }

  /** Tokens with commas between them. */
  function Join(ts: seq<string>): string {
    if ts == [] then [] else if |ts| == 1 then ts[0] else ts[0] + [','] + Join(ts[1..])
  }

  lemma JoinOnto(t: string, ts: seq<string>)
    requires ts != []
    ensures Join([t] + ts) == t + [','] + Join(ts)
  {
    assert ([t] + ts)[1..] == ts;
  }

  lemma CutAtComma(s: string, i: nat)
    requires i < |s| && s[i] == ','
    ensures s[..i] + [','] + s[i + 1..] == s
  {
  }

  /** The tokens are the pieces between the commas, empty ones included. */
  lemma {:induction false} SplitJoins(s: string)
    ensures Join(Split(s)) == s
    decreases |s|
  {
    var i := FirstComma(s);
    if i == |s| {
    } else {
      SplitJoins(s[i + 1..]);
      JoinOnto(s[..i], Split(s[i + 1..]));
      CutAtComma(s, i);
    }
  }

  lemma {:induction false} NoCommaInTokens(s: string, k: nat)
    requires k < |Split(s)|
    ensures ',' !in Split(s)[k]
    decreases |s|
  {
    var i := FirstComma(s);
    if i == |s| || k == 0 {
    } else {
      NoCommaInTokens(s[i + 1..], k - 1);
    }
  }

  /** s is one or more digits of value v, and perhaps a newline. */
  ghost predicate Decimal(s: string, v: nat) {
    exists ds: string :: ds != [] && AllDigits(ds) && Value(ds) == v && (s == ds || s == ds + "\n")
  }

  lemma {:induction false} LeadingZeros(s: string)
    requires AllDigits(s)
    ensures Value("0" + s) == Value(s)
  {
    if s == [] {
      assert "0"[..0] == [] && Value("0") == 0;
    } else {
      var n := |s| - 1;
      LeadingZeros(s[..n]);
      assert ("0" + s)[..|"0" + s| - 1] == "0" + s[..n];
    }
  }

  lemma ParseDigitsIff(s: string, limit: nat, v: nat)
    ensures ParseDigits(s, limit) == Some(v) <==> Decimal(s, v) && v <= limit
  {
    var t := if s != [] && s[|s| - 1] == '\n' then s[..|s| - 1] else s;
    assert s == t || s == t + "\n";
    if ds: string :| ds != [] && AllDigits(ds) && Value(ds) == v && (s == ds || s == ds + "\n") {
      assert IsDigit(ds[|ds| - 1]);
      assert t == ds;
    }
  }

  lemma DecimalHead(s: string, v: nat)
    requires Decimal(s, v)
    ensures s != [] && IsDigit(s[0])
  {
    var ds: string :| ds != [] && AllDigits(ds) && Value(ds) == v && (s == ds || s == ds + "\n");
    assert s[0] == ds[0];
  }

  /** kstrtoul takes a decimal number that fits, with at most a plus before it. */
  lemma KstrtoulIff(s: string, v: u64)
    ensures Kstrtoul(s) == Some(v) <==> Decimal(s, v) || (s != [] && s[0] == '+' && Decimal(s[1..], v))
  {
    ParseDigitsIff(SkipPlus(s), 0xFFFF_FFFF_FFFF_FFFF, v);
    if Decimal(s, v) {
      DecimalHead(s, v);
    }
  }

  /** kstrtoint takes one in the range of int, with at most a sign before it. */
  lemma KstrtointIff(s: string, v: i32)
    ensures Kstrtoint(s) == Some(v)
            <==> || (v >= 0 && (Decimal(s, v) || (s != [] && s[0] == '+' && Decimal(s[1..], v))))
                 || (v <= 0 && s != [] && s[0] == '-' && var m: int := v; Decimal(s[1..], -m))
  {
    var m: int := v;
    if v >= 0 && Decimal(s, v) {
      DecimalHead(s, v);
    }
    if s != [] && s[0] == '-' {
      if v <= 0 {
        ParseDigitsIff(s[1..], 0x8000_0000, -m);
      }
    } else if v >= 0 {
      ParseDigitsIff(SkipPlus(s), 0x7FFF_FFFF, v);
    }
  }

  /** At most four tokens, and every one after the first a number of its kind. */
  predicate TokensConvert(ts: seq<string>) {
    && |ts| <= 4
    && (|ts| > 1 ==> Kstrtoint(ts[1]).Some?)
    && (|ts| > 2 ==> Kstrtoul(ts[2]).Some?)
    && (|ts| > 3 ==> Kstrtoul(ts[3]).Some?)
  }

  /** The pid as the unsigned word it is stored in. */
  function PidOf(token: string): u32
    requires Kstrtoint(token).Some?
  {
    Kstrtoint(token).value % 0x1_0000_0000
  }

  lemma {:induction false} ConvertIff(ts: seq<string>, n: nat)
    requires n <= |ts|
    ensures Convert(ts, n).Some? <==> TokensConvert(ts[..n])
    ensures Convert(ts, n).Some? ==>
              Convert(ts, n).value
              == Arguments(if n > 0 then ts[0] else "", if n > 1 then Some(PidOf(ts[1])) else None,
                           if n > 2 then Kstrtoul(ts[2]) else None, if n > 3 then Kstrtoul(ts[3]) else None)
  {
    if n == 0 {
    } else {
      ConvertIff(ts, n - 1);
    }
  }

  /** -EINVAL: too many tokens, one that is no number, no command at all, or a letter that is none of the three. */
  lemma InvalidIff(buf: string)
    ensures var ts := Split(Text(buf));
      ParseLine(buf) == Invalid <==>
      !TokensConvert(ts) || ts[0] == [] || (ts[0][0] != 'R' && ts[0][0] != 'Y' && ts[0][0] != 'D')
  {
    var ts := Split(Text(buf));
    ConvertIff(ts, |ts|);
    assert ts[..|ts|] == ts;
  }

  /** Any other line runs the command of its first letter, on the numbers of its tokens if there are enough. */
  lemma RunsIff(buf: string)
    requires var ts := Split(Text(buf)); TokensConvert(ts) && ts[0] != []
    ensures var ts := Split(Text(buf));
      && (ts[0][0] == 'R' ==>
            ParseLine(buf) == if |ts| == 4
                              then Run(Register(PidOf(ts[1]), Kstrtoul(ts[2]).value, Kstrtoul(ts[3]).value)) else Unset)
      && (ts[0][0] == 'Y' ==> ParseLine(buf) == if |ts| >= 2 then Run(Yield(PidOf(ts[1]))) else Unset)
      && (ts[0][0] == 'D' ==> ParseLine(buf) == if |ts| >= 2 then Run(Deregister(PidOf(ts[1]))) else Unset)
  {
    var ts := Split(Text(buf));
    ConvertIff(ts, |ts|);
    assert ts[..|ts|] == ts;
  }
}
