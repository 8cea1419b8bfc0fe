/**
 Derivation paths of hierarchical deterministic wallets: the printed form, in which an
 apostrophe marks a hardened component, and its parser.
 */
module DerivationPaths {
  import opened Trees

  const HARDENED := 0x8000_0000
  const MAX_UINT32 := 0xFFFF_FFFF

  type Uint32 = x: int | 0 <= x <= MAX_UINT32
  type Path = seq<Uint32>

  /** The root that relative paths are appended to. */
  const ROOT: Path := [HARDENED + 44, HARDENED + 223, HARDENED, 0]

  // ---------- strings ----------

  predicate IsSpace(c: char) {
    var n := c as int;
    || 9 <= n <= 13 || n == 0x20 || n == 0x85 || n == 0xA0 || n == 0x1680 || 0x2000 <= n <= 0x200A
    || n == 0x2028 || n == 0x2029 || n == 0x202F || n == 0x205F || n == 0x3000
  }

  function TrimLeft(s: string): string {
    if s != [] && IsSpace(s[0]) then TrimLeft(s[1..]) else s
  }

  function TrimRight(s: string): string {
    if s != [] && IsSpace(s[|s| - 1]) then TrimRight(s[..|s| - 1]) else s
  }

  function TrimSpace(s: string): string {
    TrimRight(TrimLeft(s))
  }

  /** The parts between slashes; always at least one. */
  function Split(s: string): (parts: seq<string>)
    ensures parts != []
  {
    if s == [] then [[]]
    else
      var rest := Split(s[1..]);
      if s[0] == '/' then [[]] + rest else [[s[0]] + rest[0]] + rest[1..]
  }

  function Join(parts: seq<string>): string
    requires parts != []
  {
    if |parts| == 1 then parts[0] else parts[0] + "/" + Join(parts[1..])
  }

  predicate NoSlash(s: string) {
    '/' !in s
  }

  lemma {:induction false} SplitPart(a: string, b: string)
    requires NoSlash(a)
    ensures Split(a + "/" + b) == [a] + Split(b) && Split(a) == [a]
  {
    if a == [] {
      assert a + "/" + b == ['/'] + b;
      assert (['/'] + b)[1..] == b;
    } else {
      SplitPart(a[1..], b);
      assert (a + "/" + b)[1..] == a[1..] + "/" + b;
      assert a == [a[0]] + a[1..];
      assert a[0] in a;
    }
  }

  /** Splitting undoes joining. */
  lemma {:induction false} SplitJoin(parts: seq<string>)
    requires parts != [] && forall p | p in parts :: NoSlash(p)
    ensures Split(Join(parts)) == parts
  {
    if |parts| == 1 {
      SplitPart(parts[0], []);
    } else {
      SplitPart(parts[0], Join(parts[1..]));
      SplitJoin(parts[1..]);
      assert parts == [parts[0]] + parts[1..];
    }
  }

  // ---------- numbers ----------

  function Digit(c: char): int {
    if '0' <= c <= '9' then c as int - '0' as int
    else if 'a' <= c <= 'z' then c as int - 'a' as int + 10
    else if 'A' <= c <= 'Z' then c as int - 'A' as int + 10
    else 99
  }

  /** What stood before the next character: nothing, a digit or base prefix, or an underscore. */
  datatype Before = Start | Number | Separator

  datatype Scanned = Scanned(value: int, count: nat, badSeparator: bool, rest: string)

  /** Reads digits of a base, and underscores, which may only stand between digits. */
  function Scan(s: string, base: int, before: Before, value: int, count: nat, bad: bool): Scanned {
    if s == [] then Scanned(value, count, bad || before == Separator, s)
    else if s[0] == '_' then Scan(s[1..], base, Separator, value, count, bad || before != Number)
    else if Digit(s[0]) < base then Scan(s[1..], base, Number, value * base + Digit(s[0]), count + 1, bad)
    else Scanned(value, count, bad || before == Separator, s)
  }

  function Finished(r: Scanned, octal: bool): Option<int> {
    if r.rest != [] then None
    else if r.count == 0 then if octal then Some(0) else None
    else if r.badSeparator then None
    else Some(r.value)
  }

  /** An unsigned integer literal: decimal, or with a prefix for base two, eight or sixteen. */
  function Unsigned(s: string): Option<int> {
    if s == [] then None
    else if s[0] != '0' then Finished(Scan(s, 10, Start, 0, 0, false), false)
    else if |s| == 1 then Some(0)
    else if s[1] == 'b' || s[1] == 'B' then Finished(Scan(s[2..], 2, Number, 0, 0, false), false)
    else if s[1] == 'o' || s[1] == 'O' then Finished(Scan(s[2..], 8, Number, 0, 0, false), false)
    else if s[1] == 'x' || s[1] == 'X' then Finished(Scan(s[2..], 16, Number, 0, 0, false), false)
    else Finished(Scan(s[1..], 8, Number, 0, 0, false), true)
  }

  /** A big integer from a literal with an optional sign. */
  function SetString(s: string): Option<int> {
    if s != [] && s[0] == '-' then
      match Unsigned(s[1..])
      case Some(v) => Some(-v)
      case None => None
    else if s != [] && s[0] == '+' then Unsigned(s[1..])
    else Unsigned(s)
  }

  function DigitChar(d: int): char
    requires 0 <= d < 10
  {
    ('0' as int + d) as char
  }

  function Decimal(n: nat): (s: string)
    ensures s != []
  {
    if n < 10 then [DigitChar(n)] else Decimal(n / 10) + [DigitChar(n % 10)]
  }

  predicate AllDigits(s: string) {
    forall c | c in s :: '0' <= c <= '9'
  }

  /** The number whose decimal digits are those of v followed by s. */
  function Eval(v: int, s: string): int
    decreases |s|
  {
    if s == [] then v else Eval(v * 10 + Digit(s[0]), s[1..])
  }

  lemma {:induction false} EvalLast(v: int, s: string, c: char)
    ensures Eval(v, s + [c]) == Eval(v, s) * 10 + Digit(c)
    decreases |s|
  {
    if s == [] {
      assert s + [c] == [c];
      assert [c][1..] == [];
    } else {
      EvalLast(v * 10 + Digit(s[0]), s[1..], c);
      assert (s + [c])[1..] == s[1..] + [c] && (s + [c])[0] == s[0];
    }
  }

  lemma {:induction false} DecimalDigits(n: nat)
    ensures AllDigits(Decimal(n)) && Eval(0, Decimal(n)) == n
    ensures Decimal(n)[0] == '0' <==> n == 0
    ensures n == 0 ==> Decimal(n) == "0"
  {
    if n >= 10 {
      DecimalDigits(n / 10);
      EvalLast(0, Decimal(n / 10), DigitChar(n % 10));
    } else {
      assert Eval(0, [DigitChar(n)]) == Eval(Digit(DigitChar(n)), [DigitChar(n)][1..]);
    }
  }

  lemma {:induction false} ScanDigits(s: string, before: Before, value: int, count: nat)
    requires AllDigits(s) && (s != [] || before == Number)
    ensures Scan(s, 10, before, value, count, false) == Scanned(Eval(value, s), count + |s|, false, [])
  {
    if s != [] {
      assert s[0] in s;
      forall c | c in s[1..] ensures c in s {}
      ScanDigits(s[1..], Number, value * 10 + Digit(s[0]), count + 1);
    }
  }

  /** A printed number is read back. */
  lemma SetStringDecimal(n: nat)
    ensures SetString(Decimal(n)) == Some(n)
  {
    var s := Decimal(n);
    DecimalDigits(n);
    assert s[0] in s;
    if n > 0 { ScanDigits(s, Start, 0, 0); }
  }

  // ---------- numbers in other bases ----------

  function DigitOf(d: int): char
    requires 0 <= d < 16
  {
    if d < 10 then ('0' as int + d) as char else ('a' as int + d - 10) as char
  }

  /** The digits of a number in a base. */
  function Numeral(n: nat, base: nat): (s: string)
    requires 2 <= base <= 16
    ensures s != []
  {
    if n < base then [DigitOf(n)] else Numeral(n / base, base) + [DigitOf(n % base)]
  }

  lemma {:induction false} ScanJoin(a: string, b: string, base: int, before: Before, value: int, count: nat)
    requires forall c | c in a :: c != '_' && Digit(c) < base
    ensures var r := Scan(a, base, before, value, count, false);
            a != [] ==> Scan(a + b, base, before, value, count, false) == Scan(b, base, Number, r.value, r.count, false)
  {
    if a != [] {
      assert a[0] in a;
      assert (a + b)[0] == a[0] && (a + b)[1..] == a[1..] + b;
      forall c | c in a[1..] ensures c in a {}
      if |a| == 1 {
        assert a[1..] == [] && a[1..] + b == b;
      } else {
        ScanJoin(a[1..], b, base, Number, value * base + Digit(a[0]), count + 1);
      }
    }
  }

  lemma {:induction false} NumeralDigits(n: nat, base: nat)
    requires 2 <= base <= 16
    ensures forall c | c in Numeral(n, base) :: c != '_' && Digit(c) < base
    decreases n
  {
    if n >= base {
      DivMod(n, base);
      NumeralDigits(n / base, base);
    }
  }

  lemma ScanOne(d: int, base: nat, before: Before, value: int, count: nat)
    requires 2 <= base <= 16 && 0 <= d < base
    ensures Scan([DigitOf(d)], base, before, value, count, false) == Scanned(value * base + d, count + 1, false, [])
  {
    assert [DigitOf(d)][1..] == [];
    assert Digit(DigitOf(d)) == d;
  }

  lemma {:induction false} ScanNumeral(n: nat, base: nat, before: Before)
    requires 2 <= base <= 16
    ensures Scan(Numeral(n, base), base, before, 0, 0, false) == Scanned(n, |Numeral(n, base)|, false, [])
    decreases n
  {
    hide Scan, Digit, DigitOf;
    if n < base {
      ScanOne(n, base, before, 0, 0);
    } else {
      DivMod(n, base);
      var q, d := n / base, n % base;
      ScanNumeral(q, base, before);
      NumeralDigits(q, base);
      ScanStep(Numeral(q, base), q, d, base, before);
    }
  }

  lemma DivMod(n: nat, base: nat)
    requires n >= base >= 2
    ensures n / base < n && 0 <= n % base < base && (n / base) * base + n % base == n
  {
  }

  lemma ScanStep(a: string, q: nat, d: nat, base: nat, before: Before)
    requires 2 <= base <= 16 && d < base && a != [] && (forall c | c in a :: c != '_' && Digit(c) < base)
    requires Scan(a, base, before, 0, 0, false) == Scanned(q, |a|, false, [])
    ensures Scan(a + [DigitOf(d)], base, before, 0, 0, false) == Scanned(q * base + d, |a| + 1, false, [])
  {
    hide Scan, Digit, DigitOf;
    ScanJoin(a, [DigitOf(d)], base, before, 0, 0);
    ScanOne(d, base, Number, q, |a|);
  }

  /** Literals with a prefix are read in base two, eight or sixteen; a leading zero alone means eight. */
  lemma SetStringPrefixed(n: nat)
    ensures SetString("0b" + Numeral(n, 2)) == Some(n) && SetString("0B" + Numeral(n, 2)) == Some(n)
    ensures SetString("0o" + Numeral(n, 8)) == Some(n) && SetString("0O" + Numeral(n, 8)) == Some(n)
    ensures SetString("0x" + Numeral(n, 16)) == Some(n) && SetString("0X" + Numeral(n, 16)) == Some(n)
    ensures SetString("0" + Numeral(n, 8)) == Some(n)
  {
    hide Scan, Numeral;
    NumeralDigits(n, 8);
    ScanNumeral(n, 2, Number);
    ScanNumeral(n, 8, Number);
    ScanNumeral(n, 16, Number);
    Prefixed("0b", Numeral(n, 2));
    Prefixed("0B", Numeral(n, 2));
    Prefixed("0o", Numeral(n, 8));
    Prefixed("0O", Numeral(n, 8));
    Prefixed("0x", Numeral(n, 16));
    Prefixed("0X", Numeral(n, 16));
    var s := "0" + Numeral(n, 8);
    assert s[0] == '0' && s[1] == Numeral(n, 8)[0] && s[1..] == Numeral(n, 8);
    assert Numeral(n, 8)[0] in Numeral(n, 8);
  }

  lemma Prefixed(p: string, s: string)
    requires |p| == 2
    ensures (p + s)[0] == p[0] && (p + s)[1] == p[1] && (p + s)[2..] == s
  {
  }

  /** A sign is read, and white space around a component is ignored. */
  lemma SetStringSigned(n: nat)
    ensures SetString("-" + Decimal(n)) == Some(-(n as int)) && SetString("+" + Decimal(n)) == Some(n)
  {
    SetStringDecimal(n);
    DecimalDigits(n);
    assert Decimal(n)[0] in Decimal(n);
    assert ("-" + Decimal(n))[1..] == Decimal(n) && ("+" + Decimal(n))[1..] == Decimal(n);
  }

  predicate AllSpace(s: string) {
    forall c | c in s :: IsSpace(c)
  }

  lemma {:induction false} TrimLeftPadded(a: string, s: string)
    requires AllSpace(a)
    ensures TrimLeft(a + s) == TrimLeft(s)
  {
    if a == [] {
      assert a + s == s;
    } else {
      assert a[0] in a && (a + s)[0] == a[0] && (a + s)[1..] == a[1..] + s;
      TrimLeftPadded(a[1..], s);
    }
  }

  lemma {:induction false} TrimRightPadded(s: string, b: string)
    requires AllSpace(b)
    ensures TrimRight(s + b) == TrimRight(s)
    decreases |b|
  {
    if b == [] {
      assert s + b == s;
    } else {
      var n := |b| - 1;
      assert b[n] in b && (s + b)[|s + b| - 1] == b[n] && (s + b)[..|s + b| - 1] == s + b[..n];
      TrimRightPadded(s, b[..n]);
    }
  }

  lemma {:induction false} TrimLeftThen(s: string, b: string)
    requires AllSpace(b)
    ensures TrimLeft(s + b) == TrimLeft(s) + b || (TrimLeft(s) == [] && AllSpace(TrimLeft(s + b)))
  {
    if s == [] {
      assert s + b == b;
      TrimLeftSpace(b);
    } else if IsSpace(s[0]) {
      assert (s + b)[0] == s[0] && (s + b)[1..] == s[1..] + b;
      TrimLeftThen(s[1..], b);
    } else {
      assert (s + b)[0] == s[0];
    }
  }

  lemma {:induction false} TrimLeftSpace(b: string)
    requires AllSpace(b)
    ensures TrimLeft(b) == []
  {
    if b != [] {
      assert b[0] in b;
      TrimLeftSpace(b[1..]);
    }
  }

  lemma TrimPadded(a: string, s: string, b: string)
    requires AllSpace(a) && AllSpace(b)
    ensures TrimSpace(a + s + b) == TrimSpace(s)
  {
    assert a + s + b == a + (s + b);
    TrimLeftPadded(a, s + b);
    TrimLeftThen(s, b);
    if TrimLeft(s + b) == TrimLeft(s) + b {
      TrimRightPadded(TrimLeft(s), b);
    } else {
      TrimRightPadded([], TrimLeft(s + b));
      assert [] + TrimLeft(s + b) == TrimLeft(s + b);
    }
  }

  // ---------- components ----------

  datatype Component = Value(value: Uint32) | NotNumber | TooLarge

  function ParseComponent(s: string): Component {
    var t := TrimSpace(s);
    var hardened := t != [] && t[|t| - 1] == '\'';
    var base := if hardened then HARDENED else 0;
    var u := if hardened then TrimSpace(t[..|t| - 1]) else t;
    match SetString(u)
    case None => NotNumber
    case Some(v) => if v < 0 || v > MAX_UINT32 - base then TooLarge else Value(base + v)
  }

  function PrintComponent(c: Uint32): string {
    if c >= HARDENED then Decimal(c - HARDENED) + "'" else Decimal(c)
  }

  lemma Trimmed(s: string)
    requires s != [] && !IsSpace(s[0]) && !IsSpace(s[|s| - 1])
    ensures TrimSpace(s) == s
  {
  }

  lemma DigitsTrimmed(s: string)
    requires s != [] && AllDigits(s)
    ensures TrimSpace(s) == s && TrimSpace(s + "'") == s + "'" && s[|s| - 1] != '\'' && NoSlash(s) && NoSlash(s + "'")
  {
    assert s[0] in s && s[|s| - 1] in s;
    Trimmed(s);
    Trimmed(s + "'");
  }

  /** A printed component is read back. */
  lemma ComponentRoundTrip(c: Uint32)
    ensures ParseComponent(PrintComponent(c)) == Value(c) && NoSlash(PrintComponent(c))
  {
    var n := if c >= HARDENED then c - HARDENED else c;
    DecimalDigits(n);
    DigitsTrimmed(Decimal(n));
    SetStringDecimal(n);
    assert (Decimal(n) + "'")[..|Decimal(n)|] == Decimal(n);
  }

  /** White space around a component is ignored, also before the apostrophe. */
  lemma ComponentPadded(a: string, s: string, b: string)
    requires AllSpace(a) && AllSpace(b)
    ensures ParseComponent(a + s + b) == ParseComponent(s)
    ensures ParseComponent(s + b + "'") == ParseComponent(s + "'")
  {
    TrimPadded(a, s, b);
    hide TrimSpace, SetString;
    TrimTick(s);
    TrimTick(s + b);
    TrimPadded([], TrimLeft(s), b);
    assert [] + s + b == s + b;
    TrimTwice(s);
    TrimTwice(s + b);
    TrimPadded([], s, b);
  }

  /** The apostrophe ends the text: only white space before is trimmed. */
  lemma TrimTick(s: string)
    ensures TrimSpace(s + "'") == TrimLeft(s) + "'"
  {
    TrimLeftTick(s);
  }

  lemma {:induction false} TrimLeftTick(s: string)
    ensures TrimLeft(s + "'") == TrimLeft(s) + "'"
  {
    if s != [] && IsSpace(s[0]) {
      assert (s + "'")[1..] == s[1..] + "'";
      TrimLeftTick(s[1..]);
    }
  }

  lemma {:induction false} TrimTwice(s: string)
    ensures TrimSpace(TrimLeft(s)) == TrimSpace(s)
  {
    if s != [] && IsSpace(s[0]) { TrimTwice(s[1..]); }
  }

  /** Which numbers are out of range. */
  lemma ComponentRange(n: nat)
    ensures ParseComponent(Decimal(n)) == if n <= MAX_UINT32 then Value(n) else TooLarge
    ensures ParseComponent(Decimal(n) + "'") == if n < HARDENED then Value(HARDENED + n) else TooLarge
    ensures ParseComponent("-" + Decimal(n)) == if n == 0 then Value(0) else TooLarge
  {
    hide SetString, Decimal;
    DecimalDigits(n);
    DigitsTrimmed(Decimal(n));
    SetStringDecimal(n);
    SetStringSigned(n);
    assert (Decimal(n) + "'")[..|Decimal(n)|] == Decimal(n);
    assert ("-" + Decimal(n))[|Decimal(n)|] == Decimal(n)[|Decimal(n)| - 1] && Decimal(n)[|Decimal(n)| - 1] in Decimal(n);
    Trimmed("-" + Decimal(n));
  }

  // ---------- paths ----------

  datatype Result = Parsed(path: Path) | EmptyPath | Ambiguous | Invalid | OutOfRange

  /** The components read one by one; the first that cannot be read decides the error. */
  function ParseAll(parts: seq<string>, path: Path): Result {
    if parts == [] then Parsed(path)
    else
      match ParseComponent(parts[0])
      case NotNumber => Invalid
      case TooLarge => OutOfRange
      case Value(v) => ParseAll(parts[1..], path + [v])
  }

  function Parse(s: string): Result {
    var parts := Split(s);
    var first := TrimSpace(parts[0]);
    if first == [] then Ambiguous
    else if first == "m" then if |parts| == 1 then EmptyPath else ParseAll(parts[1..], [])
    else ParseAll(parts, ROOT)
  }

  function Parts(path: Path): seq<string> {
    seq(|path|, i requires 0 <= i < |path| => PrintComponent(path[i]))
  }

  /** The canonical form: m, then every component. */
  function Print(path: Path): string {
    Join(["m"] + Parts(path))
  }

  lemma {:induction false} ParseParts(path: Path, k: nat)
    requires k <= |path|
    ensures ParseAll(Parts(path)[k..], path[..k]) == Parsed(path)
    decreases |path| - k
  {
    hide ParseComponent, PrintComponent;
    if k < |path| {
      ComponentRoundTrip(path[k]);
      ParseParts(path, k + 1);
      assert Parts(path)[k..][1..] == Parts(path)[k + 1..];
      assert path[..k + 1] == path[..k] + [path[k]];
    } else {
      assert path[..k] == path;
    }
  }

  /** Parsing the printed form gives the path back, for every path but the empty one. */
  lemma PathRoundTrip(path: Path)
    ensures Parse(Print(path)) == if path == [] then EmptyPath else Parsed(path)
  {
    var parts := ["m"] + Parts(path);
    PartsSlashless(path);
    SplitJoin(parts);
    Trimmed("m");
    assert parts[1..] == Parts(path);
    ParseParts(path, 0);
    assert Parts(path)[0..] == Parts(path) && path[..0] == [];
  }

  lemma {:induction false} ParseAllAppend(a: seq<string>, b: seq<string>, path: Path)
    ensures ParseAll(a + b, path) == match ParseAll(a, path)
                                     case Parsed(p) => ParseAll(b, p)
                                     case e => e
  {
    if a == [] {
      assert a + b == b;
    } else {
      assert (a + b)[0] == a[0] && (a + b)[1..] == a[1..] + b;
      if ParseComponent(a[0]).Value? { ParseAllAppend(a[1..], b, path + [ParseComponent(a[0]).value]); }
    }
  }

  lemma {:induction false} SplitAfter(parts: seq<string>, s: string)
    requires parts != [] && forall p | p in parts :: NoSlash(p)
    ensures Split(Join(parts) + "/" + s) == parts + Split(s)
  {
    hide Join, Split;
    assert parts[0] in parts;
    if |parts| == 1 {
      assert parts == [parts[0]];
      LastPart(parts[0]);
      SplitPart(parts[0], s);
    } else {
      var rest := parts[1..];
      assert parts == [parts[0]] + rest;
      JoinStep(parts[0], rest);
      assert parts[0] + "/" + Join(rest) + "/" + s == parts[0] + "/" + (Join(rest) + "/" + s);
      SplitPart(parts[0], Join(rest) + "/" + s);
      SplitAfter(rest, s);
    }
  }

  lemma RootParts()
    ensures Parts(ROOT) == ["44'", "223'", "0'", "0"]
  {
    assert Decimal(4) == "4" && Decimal(2) == "2" && Decimal(0) == "0";
    assert Decimal(44) == Decimal(4) + "4" && Decimal(22) == Decimal(2) + "2" && Decimal(223) == Decimal(22) + "3";
    assert PrintComponent(ROOT[0]) == "44'" && PrintComponent(ROOT[1]) == "223'";
    assert PrintComponent(ROOT[2]) == "0'" && PrintComponent(ROOT[3]) == "0";
  }

  lemma JoinStep(p: string, parts: seq<string>)
    requires parts != []
    ensures Join([p] + parts) == p + "/" + Join(parts)
  {
    assert ([p] + parts)[1..] == parts;
  }

  /** The root, printed. */
  lemma RootText()
    ensures Print(ROOT) == "m/44'/223'/0'/0"
  {
    hide Join, Parts;
    RootParts();
    JoinStep("0'", ["0"]);
    JoinStep("223'", ["0'", "0"]);
    JoinStep("44'", ["223'", "0'", "0"]);
    JoinStep("m", ["44'", "223'", "0'", "0"]);
    LastPart("0");
    assert ["0'"] + ["0"] == ["0'", "0"] && ["223'"] + ["0'", "0"] == ["223'", "0'", "0"];
    assert ["44'"] + ["223'", "0'", "0"] == ["44'", "223'", "0'", "0"];
  }

  lemma LastPart(p: string)
    ensures Join([p]) == p
  {
  }

  /**
   A relative text means what it means after the root: for every text whose first component is
   neither empty nor m, whether it can be read or not.
   */
  lemma RelativeIsAbsolute(s: string)
    requires TrimSpace(Split(s)[0]) != [] && TrimSpace(Split(s)[0]) != "m"
    ensures Parse(s) == Parse("m/44'/223'/0'/0" + "/" + s)
  {
    RootText();
    AfterRoot(s);
  }

  lemma AfterRoot(s: string)
    requires TrimSpace(Split(s)[0]) != [] && TrimSpace(Split(s)[0]) != "m"
    ensures Parse(s) == Parse(Print(ROOT) + "/" + s)
  {
    hide TrimSpace, ParseComponent, PrintComponent, Join, Split;
    var roots := Parts(ROOT);
    var parts := ["m"] + roots;
    PartsSlashless(ROOT);
    SplitAfter(parts, s);
    var all := parts + Split(s);
    assert all[0] == "m" && all[1..] == roots + Split(s);
    Trimmed("m");
    ParseParts(ROOT, 0);
    assert roots[0..] == roots && ROOT[..0] == [];
    ParseAllAppend(roots, Split(s), []);
  }

  lemma PartsSlashless(path: Path)
    ensures forall p | p in ["m"] + Parts(path) :: NoSlash(p)
  {
    forall p | p in ["m"] + Parts(path) ensures NoSlash(p) {
      if p != "m" {
        var i :| 0 <= i < |path| && Parts(path)[i] == p;
        ComponentRoundTrip(path[i]);
      }
    }
  }

  /** A printed path without its m is appended to the root. */
  lemma RelativeRoundTrip(path: Path)
    requires path != []
    ensures Parse(Join(Parts(path))) == Parsed(ROOT + path)
  {
    var parts := Parts(path);
    forall p | p in parts ensures NoSlash(p) {
      var i :| 0 <= i < |path| && parts[i] == p;
      ComponentRoundTrip(path[i]);
    }
    SplitJoin(parts);
    PrintedFirst(path[0]);
    ParsePartsAfter(path, 0);
    assert parts[0..] == parts && path[..0] == [] && ROOT + [] == ROOT;
  }

  lemma PrintedFirst(c: Uint32)
    ensures TrimSpace(PrintComponent(c)) == PrintComponent(c) && PrintComponent(c) != [] && PrintComponent(c) != "m"
  {
    var n := if c >= HARDENED then c - HARDENED else c;
    DecimalDigits(n);
    DigitsTrimmed(Decimal(n));
    assert Decimal(n)[0] in Decimal(n);
    assert PrintComponent(c)[0] == Decimal(n)[0];
  }

  lemma {:induction false} ParsePartsAfter(path: Path, k: nat)
    requires k <= |path|
    ensures ParseAll(Parts(path)[k..], ROOT + path[..k]) == Parsed(ROOT + path)
    decreases |path| - k
  {
    hide ParseComponent, PrintComponent;
    if k < |path| {
      ComponentRoundTrip(path[k]);
      ParsePartsAfter(path, k + 1);
      assert Parts(path)[k..][1..] == Parts(path)[k + 1..];
      assert ROOT + path[..k + 1] == ROOT + path[..k] + [path[k]];
    } else {
      assert path[..k] == path;
    }
  }

  /** A result has the value of every component of the text, after the root when the text is relative. */
  lemma {:induction false} ParseAllExtends(parts: seq<string>, path: Path)
    ensures ParseAll(parts, path).Parsed? <==> forall i | 0 <= i < |parts| :: ParseComponent(parts[i]).Value?
    ensures ParseAll(parts, path).Parsed? ==>
              && var r := ParseAll(parts, path).path;
              && path <= r && |r| == |path| + |parts|
              && forall i | 0 <= i < |parts| :: ParseComponent(parts[i]) == Value(r[|path| + i])
  {
    hide ParseComponent;
    if parts != [] && ParseComponent(parts[0]).Value? {
      var v := ParseComponent(parts[0]).value;
      ParseAllExtends(parts[1..], path + [v]);
      assert path <= path + [v];
      assert parts == [parts[0]] + parts[1..];
    }
  }

  /** Otherwise the first component that has none says why. */
  lemma {:induction false} ParseAllFails(parts: seq<string>, path: Path, k: nat)
    requires k < |parts| && !ParseComponent(parts[k]).Value?
    requires forall i | 0 <= i < k :: ParseComponent(parts[i]).Value?
    ensures ParseAll(parts, path) == if ParseComponent(parts[k]).NotNumber? then Invalid else OutOfRange
  {
    hide ParseComponent;
    if k > 0 { ParseAllFails(parts[1..], path + [ParseComponent(parts[0]).value], k - 1); }
  }

  method ParseDerivationPath(s: string) returns (r: Result)
    ensures r == Parse(s)
  {
    var result: Path := [];
    var components := Split(s);
    var first := TrimSpace(components[0]);
    if first == [] { return Ambiguous; }
    if first == "m" {
      components := components[1..];
    } else {
      result := ROOT;
    }
    if components == [] { return EmptyPath; }
    ghost var all, start := components, result;
    assert components[0..] == components;
    for i := 0 to |components|
      invariant ParseAll(all, start) == ParseAll(components[i..], result)
    {
      assert components[i..][0] == components[i] && components[i..][1..] == components[i + 1..];
      match ParseComponent(components[i]) {
        case NotNumber => return Invalid;
        case TooLarge => return OutOfRange;
        case Value(v) => result := result + [v];
      }
    }
    r := Parsed(result);
  }

  method PrintPath(path: Path) returns (result: string)
    ensures result == Print(path)
  {
    result := "m";
    for i := 0 to |path|
      invariant result == Join(["m"] + Parts(path[..i]))
    {
      var component, hardened := path[i], path[i] >= HARDENED;
      if hardened { component := component - HARDENED; }
      ghost var was := result;
      result := result + "/" + Decimal(component);
      if hardened { result := result + "'"; }
      JoinNext(["m"] + Parts(path[..i]), PrintComponent(path[i]));
      assert ["m"] + Parts(path[..i]) + [PrintComponent(path[i])] == ["m"] + Parts(path[..i + 1]);
    }
    assert path[..|path|] == path;
  }

  lemma {:induction false} JoinNext(parts: seq<string>, p: string)
    requires parts != []
    ensures Join(parts + [p]) == Join(parts) + "/" + p
  {
    if |parts| == 1 {
      assert (parts + [p])[1..] == [p];
    } else {
      JoinNext(parts[1..], p);
      assert (parts + [p])[1..] == parts[1..] + [p];
    }
  }
}
