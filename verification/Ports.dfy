/** The port ledger of internal/proxy/ports.go: a sidecar file per VM in the generated
    directory, each holding one port of a block of sixteen. */
module Ports {
  import opened Text

  const PROXY_PORT: int := 8888
  const SLOTS: int := 16
  const PORT_MIN: int := PROXY_PORT + 1
  const PORT_MAX: int := PROXY_PORT + SLOTS
  const SUFFIX := ".proxy-port"

  /** The generated directory: file name to contents. A missing directory is an empty one. */
  type Dir = map<string, string>

  datatype PortError = Unreadable | NotANumber | Full | WriteFailed

  function PortFile(name: string): string { name + SUFFIX }

  predicate IsSidecar(file: string) {
    |file| >= |SUFFIX| && file[|file| - |SUFFIX|..] == SUFFIX
  }

  function NameOf(file: string): string
    requires IsSidecar(file)
  {
    file[..|file| - |SUFFIX|]
  }

  lemma SidecarNames(name: string)
    ensures IsSidecar(PortFile(name)) && NameOf(PortFile(name)) == name
    ensures forall file :: IsSidecar(file) ==> PortFile(NameOf(file)) == file
  {
    forall file | IsSidecar(file) ensures PortFile(NameOf(file)) == file {
      assert file == file[..|file| - |SUFFIX|] + file[|file| - |SUFFIX|..];
    }
  }

  // --- numbers -------------------------------------------------------------------------

  function Digit(d: nat): char
    requires d < 10
  {
    '0' + d as char
  }

  /** fmt's %d for a number that is not negative. */
  function Decimal(n: nat): string {
    (if n < 10 then "" else Decimal(n / 10)) + [Digit(n % 10)]
  }

  function ParseDigits(s: string): Option<nat> {
    if s == "" then None
    else
      var last := s[|s| - 1];
      if !('0' <= last <= '9') then None
      else
        var d := last as int - '0' as int;
        if |s| == 1 then Some(d)
        else
          match ParseDigits(s[..|s| - 1])
          case None => None
          case Some(v) => Some(v * 10 + d)
  }

  /** strconv.Atoi on a 64-bit int. */
  function Atoi(s: string): Option<int> {
    var negative := "-" <= s;
    var digits := if negative || "+" <= s then s[1..] else s;
    match ParseDigits(digits)
    case None => None
    case Some(digits) =>
      var v: int := digits;
      if negative then (if v <= 0x8000_0000_0000_0000 then Some(-v) else None)
      else if v < 0x8000_0000_0000_0000 then Some(v) else None
  }

  lemma DigitValue(n: nat)
    requires n < 10
    ensures '0' <= Digit(n) <= '9' && Digit(n) as int - '0' as int == n
  {
  }

  lemma ParseSnoc(front: string, d: nat)
    requires d < 10 && (front == "" || ParseDigits(front).Some?)
    ensures ParseDigits(front + [Digit(d)]) == Some((if front == "" then 0 else ParseDigits(front).value * 10) + d)
  {
    hide Digit;
    DigitValue(d);
    assert (front + [Digit(d)])[..|front|] == front;
  }

  lemma {:induction false} DecimalDigits(n: nat)
    ensures ParseDigits(Decimal(n)) == Some(n)
    ensures Decimal(n) != "" && forall c <- Decimal(n) :: '0' <= c <= '9'
  {
    hide Digit, ParseDigits;
    DigitValue(n % 10);
    if n < 10 {
      ParseSnoc("", n);
    } else {
      DecimalDigits(n / 10);
      ParseSnoc(Decimal(n / 10), n % 10);
    }
  }

  lemma TrimmedNewline(s: string)
    requires s != "" && !IsSpace(s[0]) && !IsSpace(s[|s| - 1])
    ensures TrimSpace(s + "\n") == s
  {
    assert (s + "\n")[..|s|] == s;
    assert TrimRight(s + "\n") == TrimRight(s);
  }

  lemma AtoiOfDigits(s: string)
    requires s != "" && '0' <= s[0] <= '9'
    requires ParseDigits(s).Some? && ParseDigits(s).value < 0x8000_0000_0000_0000
    ensures Atoi(s) == Some(ParseDigits(s).value)
  {
    hide ParseDigits;
  }

  /** A sidecar's text is read back as the port that was written. */
  lemma SidecarText(port: nat)
    requires port < 0x8000_0000_0000_0000
    ensures Atoi(TrimSpace(Decimal(port) + "\n")) == Some(port)
  {
    hide Atoi, TrimSpace, ParseDigits, Decimal;
    DecimalDigits(port);
    var s := Decimal(port);
    assert s[0] in s && s[|s| - 1] in s;
    TrimmedNewline(s);
    AtoiOfDigits(s);
  }

  /** What strconv.Atoi makes of a number: in range or refused. */
  ghost function Bounded(n: int): Option<int> {
    if -0x8000_0000_0000_0000 <= n < 0x8000_0000_0000_0000 then Some(n) else None
  }

  lemma {:induction false} ZerosRead(zeros: string, n: nat)
    requires forall c <- zeros :: c == '0'
    ensures ParseDigits(zeros + Decimal(n)) == Some(n)
    decreases n
  {
    hide ParseDigits, Digit;
    DigitValue(n % 10);
    var front := if n < 10 then zeros else zeros + Decimal(n / 10);
    assert zeros + Decimal(n) == front + [Digit(n % 10)];
    if n < 10 {
      OnlyZeros(zeros);
    } else {
      ZerosRead(zeros, n / 10);
    }
    ParseSnoc(front, n % 10);
  }

  lemma {:induction false} OnlyZeros(zeros: string)
    requires forall c <- zeros :: c == '0'
    ensures zeros != "" ==> ParseDigits(zeros) == Some(0)
  {
    if zeros != "" {
      var front := zeros[..|zeros| - 1];
      assert zeros[|zeros| - 1] in zeros && forall c <- front :: c in zeros;
      OnlyZeros(front);
    }
  }

  /** A number with any sign and any leading zeros reads as it is written, if 64 bits hold it. */
  lemma NumberReads(zeros: string, n: nat)
    requires forall c <- zeros :: c == '0'
    ensures Atoi(zeros + Decimal(n)) == Atoi("+" + zeros + Decimal(n)) == Bounded(n)
    ensures Atoi("-" + zeros + Decimal(n)) == Bounded(0 - n)
  {
    hide ParseDigits, Decimal, Atoi;
    ZerosRead(zeros, n);
    DecimalDigits(n);
    var digits := zeros + Decimal(n);
    assert digits[0] in zeros || digits[0] in Decimal(n);
    assert "+" + zeros + Decimal(n) == "+" + digits && "-" + zeros + Decimal(n) == "-" + digits;
    SignedReads(digits);
  }

  lemma SignedReads(digits: string)
    requires digits != "" && '0' <= digits[0] <= '9' && ParseDigits(digits).Some?
    ensures Atoi(digits) == Atoi("+" + digits) == Bounded(ParseDigits(digits).value)
    ensures Atoi("-" + digits) == Bounded(0 - ParseDigits(digits).value)
  {
    hide ParseDigits;
    assert ("+" + digits)[1..] == digits && ("-" + digits)[1..] == digits;
  }

  /** Nothing else reads as a number. */
  lemma NumberOnly(s: string)
    requires Atoi(s).Some?
    ensures exists sign, zeros, n :: sign in ["", "+", "-"] && (forall c <- zeros :: c == '0') && s == sign + zeros + Decimal(n)
  {
    hide ParseDigits, Decimal;
    var sign := if "-" <= s then "-" else if "+" <= s then "+" else "";
    var digits := s[|sign|..];
    var zeros, n := DigitsOnly(digits);
    assert s == sign + zeros + Decimal(n);
  }

  lemma OneDigit(d: nat)
    requires d < 10
    ensures Decimal(d) == [Digit(d)]
  {
  }

  lemma MoreDigits(n: nat, d: nat)
    requires n > 0 && d < 10
    ensures Decimal(n * 10 + d) == Decimal(n) + [Digit(d)]
  {
  }

  lemma LastDigit(s: string) returns (front: string, d: nat)
    requires ParseDigits(s).Some?
    ensures d < 10 && s == front + [Digit(d)]
    ensures if front == "" then ParseDigits(s) == Some(d)
            else ParseDigits(front).Some? && ParseDigits(s) == Some(ParseDigits(front).value * 10 + d)
  {
    front, d := s[..|s| - 1], s[|s| - 1] as int - '0' as int;
  }

  lemma {:induction false} DigitsOnly(s: string) returns (zeros: string, n: nat)
    requires ParseDigits(s).Some?
    ensures (forall c <- zeros :: c == '0') && s == zeros + Decimal(n) && ParseDigits(s) == Some(n)
    decreases |s|
  {
    hide Decimal, ParseDigits;
    var front, d := LastDigit(s);
    if front == "" {
      zeros, n := "", d;
      OneDigit(d);
    } else {
      zeros, n := DigitsOnly(front);
      if n == 0 {
        OneDigit(0);
        OneDigit(d);
        DigitValue(0);
        zeros, n := front, d;
      } else {
        MoreDigits(n, d);
        assert s == zeros + (Decimal(n) + [Digit(d)]);
        n := n * 10 + d;
      }
    }
  }

  // --- the ledger ----------------------------------------------------------------------------

  predicate Readable(dir: Dir) {
    forall file | file in dir && IsSidecar(file) :: Atoi(TrimSpace(dir[file])).Some?
  }

  /** The allocations a directory holds, by VM. */
  function Held(dir: Dir): map<string, int>
    requires Readable(dir)
  {
    var names := set file | file in dir && IsSidecar(file) :: NameOf(file);
    map name | name in names :: PortIn(dir, name)
  }

  function PortIn(dir: Dir, name: string): int
    requires Readable(dir)
  {
    SidecarNames(name);
    if PortFile(name) in dir then Atoi(TrimSpace(dir[PortFile(name)])).value else 0
  }

  lemma HeldAt(dir: Dir, name: string)
    requires Readable(dir)
    ensures name in Held(dir) <==> PortFile(name) in dir
    ensures name in Held(dir) ==> Held(dir)[name] == PortIn(dir, name)
  {
    SidecarNames(name);
  }

  ghost predicate Injective(held: map<string, int>) {
    forall a, b :: a in held && b in held && held[a] == held[b] ==> a == b
  }

  /** Every command keeps this: readable sidecars, a different port for every VM, all of
      them inside the block squid listens on. */
  ghost predicate Ledger(dir: Dir) {
    && Readable(dir)
    && Injective(Held(dir))
    && forall name :: name in Held(dir) ==> PORT_MIN <= Held(dir)[name] <= PORT_MAX
  }

  /** Two directories with the same sidecars hold the same allocations. */
  lemma SameSidecars(a: Dir, b: Dir)
    requires Readable(a) && Readable(b)
    requires forall name :: PortFile(name) in a <==> PortFile(name) in b
    requires forall name :: PortFile(name) in a ==> a[PortFile(name)] == b[PortFile(name)]
    ensures Held(a) == Held(b)
  {
    hide Atoi, TrimSpace, Held, Readable, PortFile;
    forall name
      ensures name in Held(a) <==> name in Held(b)
      ensures name in Held(a) ==> Held(a)[name] == Held(b)[name]
    {
      HeldAt(a, name);
      HeldAt(b, name);
      if PortFile(name) in a {
        PortInText(a, name);
        PortInText(b, name);
      }
    }
  }

  lemma PortInText(dir: Dir, name: string)
    requires Readable(dir) && PortFile(name) in dir
    ensures Some(PortIn(dir, name)) == Atoi(TrimSpace(dir[PortFile(name)]))
  {
    hide Atoi, TrimSpace;
    SidecarNames(name);
  }

  /** Writing or removing any other file leaves the ledger alone. */
  lemma OtherFile(dir: Dir, file: string, text: string)
    requires Readable(dir) && !IsSidecar(file)
    ensures Readable(dir[file := text]) && Held(dir[file := text]) == Held(dir)
    ensures Readable(dir - {file}) && Held(dir - {file}) == Held(dir)
  {
    hide Atoi, TrimSpace, Held, PortFile, IsSidecar;
    forall name ensures PortFile(name) != file { SidecarNames(name); }
    SameSidecars(dir, dir[file := text]);
    SameSidecars(dir, dir - {file});
  }

  lemma WriteSidecar(dir: Dir, name: string, port: nat)
    requires Readable(dir) && port < 0x8000_0000_0000_0000
    ensures var dir' := dir[PortFile(name) := Decimal(port) + "\n"];
            Readable(dir') && Held(dir') == Held(dir)[name := port]
  {
    hide Atoi, TrimSpace, Decimal;
    SidecarText(port);
    SidecarNames(name);
    var dir' := dir[PortFile(name) := Decimal(port) + "\n"];
    forall n ensures n in Held(dir') <==> n == name || n in Held(dir)
             ensures n in Held(dir') ==> Held(dir')[n] == if n == name then port else Held(dir)[n]
    {
      SidecarNames(n);
      HeldAt(dir, n);
      HeldAt(dir', n);
    }
  }

  lemma RemoveSidecar(dir: Dir, name: string)
    requires Readable(dir)
    ensures Readable(dir - {PortFile(name)}) && Held(dir - {PortFile(name)}) == Held(dir) - {name}
  {
    hide Atoi, TrimSpace;
    var dir' := dir - {PortFile(name)};
    forall n ensures n in Held(dir') <==> n != name && n in Held(dir)
             ensures n in Held(dir') ==> Held(dir')[n] == Held(dir)[n]
    {
      SidecarNames(n);
      SidecarNames(name);
      HeldAt(dir, n);
      HeldAt(dir', n);
    }
  }

  /** PortAllocations. Reading the directory or a sidecar can fail, unless the host is
      `steady`. */
  method PortAllocations(dir: Dir, steady: bool) returns (ports: Result<map<string, int>, PortError>)
    ensures ports.Ok? ==> Readable(dir) && ports.value == Held(dir)
    ensures ports.Err? ==> ports.error == Unreadable || (ports.error == NotANumber && !Readable(dir))
    ensures steady ==> ports == if Readable(dir) then Ok(Held(dir)) else Err(NotANumber)
  {
    hide Atoi, TrimSpace;
    var fails: bool := *;
    if fails && !steady {
      return Err(Unreadable);
    }
    var left := dir.Keys;
    var found: map<string, int> := map[];
    while left != {}
      invariant left <= dir.Keys
      invariant forall f | f in dir && f !in left && IsSidecar(f) :: Atoi(TrimSpace(dir[f])).Some?
      invariant forall n :: n in found <==> PortFile(n) in dir && PortFile(n) !in left
      invariant forall n :: n in found ==> Atoi(TrimSpace(dir[PortFile(n)])) == Some(found[n])
      decreases left
    {
      var file :| file in left;
      left := left - {file};
      if IsSidecar(file) {
        SidecarNames(NameOf(file));
        fails := *;
        if fails && !steady {
          return Err(Unreadable);
        }
        match Atoi(TrimSpace(dir[file])) {
          case None => return Err(NotANumber);
          case Some(port) =>
            found := found[NameOf(file) := port];
            forall n ensures n in found <==> PortFile(n) in dir && PortFile(n) !in left {
              SidecarNames(n);
            }
        }
      } else {
        forall n ensures PortFile(n) != file { SidecarNames(n); }
      }
    }
    forall n ensures n in found <==> n in Held(dir) { HeldAt(dir, n); }
    forall n | n in found ensures found[n] == Held(dir)[n] { HeldAt(dir, n); }
    assert found == Held(dir);
    return Ok(found);
  }

  /** The lowest port from `from` on that no VM holds. */
  function LeastFree(used: set<int>, from: int): (port: Option<int>)
    requires PORT_MIN <= from <= PORT_MAX + 1
    ensures port.Some? ==> from <= port.value <= PORT_MAX && port.value !in used
    ensures port.Some? ==> forall p :: from <= p < port.value ==> p in used
    ensures port.None? ==> forall p :: from <= p <= PORT_MAX ==> p in used
    decreases PORT_MAX + 1 - from
  {
    if from > PORT_MAX then None else if from !in used then Some(from) else LeastFree(used, from + 1)
  }

  /** The generated directory as the port functions see it. */
  class GeneratedDir {
    var files: Dir
    /** No read or write of these files fails. */
    const steady: bool

    constructor (steady: bool)
      ensures files == map[] && this.steady == steady
    {
      files, this.steady := map[], steady;
    }

    /** AllocatePort: the port a VM already holds, else the least free one. A read or the write
        can fail; nothing has changed then. */
    method AllocatePort(name: string) returns (port: Result<int, PortError>)
      modifies this
      ensures steady ==> port != Err(Unreadable) && port != Err(WriteFailed)
      ensures port == Err(Unreadable) ==> files == old(files)
      ensures port != Err(Unreadable) && !Readable(old(files)) ==> port == Err(NotANumber) && files == old(files)
      ensures port != Err(Unreadable) && Readable(old(files)) ==>
                var held := Held(old(files));
                if name in held then port == Ok(held[name]) && files == old(files)
                else
                  match LeastFree(held.Values, PORT_MIN)
                  case None => port == Err(Full) && files == old(files)
                  case Some(p) =>
                    || (port == Ok(p) && files == old(files)[PortFile(name) := Decimal(p) + "\n"])
                    || (port == Err(WriteFailed) && files == old(files))
    {
      hide Readable, Held, Decimal, PortFile;
      var ports := PortAllocations(files, steady);
      if ports.Err? {
        return Err(ports.error);
      }
      var held := ports.value;
      if name in held {
        return Ok(held[name]);
      }
      var candidate := PORT_MIN;
      while candidate <= PORT_MAX
        invariant PORT_MIN <= candidate <= PORT_MAX + 1
        invariant files == old(files)
        invariant LeastFree(held.Values, PORT_MIN) == LeastFree(held.Values, candidate)
        decreases PORT_MAX + 1 - candidate
      {
        if candidate !in held.Values {
          var wrote: bool := *;
          if !wrote && !steady {
            return Err(WriteFailed);
          }
          files := files[PortFile(name) := Decimal(candidate) + "\n"];
          return Ok(candidate);
        }
        candidate := candidate + 1;
      }
      return Err(Full);
    }

    /** ReleasePort: absent is fine. The removal of a file that is there can fail. */
    method ReleasePort(name: string) returns (ok: bool)
      modifies this
      ensures ok ==> files == old(files) - {PortFile(name)}
      ensures !ok ==> files == old(files) && PortFile(name) in files
      ensures steady ==> ok
    {
      ok := true;
      if PortFile(name) in files {
        ok := *;
        ok := ok || steady;
        if ok {
          files := files - {PortFile(name)};
        }
      } else {
        assert files - {PortFile(name)} == files;
      }
    }
  }

  // --- what holds over all runs ---------------------------------------------------------------------

  /** Giving a VM the least free port keeps every port different and inside the block. */
  lemma AllocationKeepsLedger(dir: Dir, name: string, port: int)
    requires Ledger(dir) && name !in Held(dir)
    requires LeastFree(Held(dir).Values, PORT_MIN) == Some(port)
    ensures Ledger(dir[PortFile(name) := Decimal(port) + "\n"])
    ensures Held(dir[PortFile(name) := Decimal(port) + "\n"]) == Held(dir)[name := port]
  {
    hide Held, Readable, Decimal;
    WriteSidecar(dir, name, port);
    assert forall n :: n in Held(dir) ==> Held(dir)[n] in Held(dir).Values;
  }

  lemma ReleaseKeepsLedger(dir: Dir, name: string)
    requires Ledger(dir)
    ensures Ledger(dir - {PortFile(name)})
    ensures Held(dir - {PortFile(name)}) == Held(dir) - {name}
  {
    hide Held, Readable;
    RemoveSidecar(dir, name);
  }

  /** The first `n` ports of the block. */
  function Block(n: nat): set<int> {
    if n == 0 then {} else Block(n - 1) + {PORT_MIN + n - 1}
  }

  lemma {:induction false} BlockHolds(n: nat)
    ensures |Block(n)| == n
    ensures forall p :: p in Block(n) <==> PORT_MIN <= p < PORT_MIN + n
  {
    if n > 0 {
      BlockHolds(n - 1);
    }
  }

  lemma SomeMember<T>(s: set<T>) returns (x: T)
    requires s != {}
    ensures x in s
  {
    x :| x in s;
  }

  lemma {:induction false} SubsetSize(a: set<int>, b: set<int>)
    requires a <= b
    ensures |a| <= |b| && (|a| == |b| ==> a == b)
    decreases |a|
  {
    if a != {} {
      var x := SomeMember(a);
      SubsetSize(a - {x}, b - {x});
      assert a == (a - {x}) + {x} && b == (b - {x}) + {x};
    }
  }

  lemma {:induction false} InjectiveSize(held: map<string, int>)
    requires Injective(held)
    ensures |held| == |held.Values|
    decreases |held|
  {
    if held != map[] {
      var n :| n in held;
      var rest := held - {n};
      InjectiveSize(rest);
      assert held.Keys == rest.Keys + {n};
      assert held.Values == rest.Values + {held[n]} by {
        forall v | v in held.Values ensures v in rest.Values + {held[n]} {
          var k :| k in held && held[k] == v;
          assert k == n || (k in rest && rest[k] == v);
        }
        forall v | v in rest.Values + {held[n]} ensures v in held.Values {
          if v in rest.Values {
            var k :| k in rest && rest[k] == v;
            assert held[k] == v;
          }
        }
      }
      assert held[n] !in rest.Values;
      assert |held.Keys| == |rest.Keys| + 1;
    }
  }

  /** Pigeonhole: allocation is refused exactly when sixteen VMs hold a port. */
  lemma RefusedExactlyWhenFull(dir: Dir)
    requires Ledger(dir)
    ensures LeastFree(Held(dir).Values, PORT_MIN) == None <==> |Held(dir)| == SLOTS
    ensures |Held(dir)| <= SLOTS
  {
    hide Held, Readable, Block;
    var held := Held(dir);
    InjectiveSize(held);
    BlockHolds(SLOTS);
    assert held.Values <= Block(SLOTS);
    SubsetSize(held.Values, Block(SLOTS));
    if LeastFree(held.Values, PORT_MIN).None? {
      assert Block(SLOTS) <= held.Values;
      assert Block(SLOTS) == held.Values;
    } else {
      var p := LeastFree(held.Values, PORT_MIN).value;
      assert p in Block(SLOTS);
    }
  }

  /** What a command does to the ledger: an allocation that succeeds or fails, a release,
      or a file that is no sidecar written or removed. */
  datatype LedgerOp =
    | AllocateOp(name: string, wrote: bool)
    | ReleaseOp(name: string)
    | WriteOther(file: string, text: string)
    | RemoveOther(file: string)

  ghost function After(dir: Dir, op: LedgerOp): Dir {
    match op
    case AllocateOp(name, wrote) =>
      if !wrote || !Readable(dir) || name in Held(dir) || LeastFree(Held(dir).Values, PORT_MIN).None? then dir
      else dir[PortFile(name) := Decimal(LeastFree(Held(dir).Values, PORT_MIN).value) + "\n"]
    case ReleaseOp(name) => dir - {PortFile(name)}
    case WriteOther(file, text) => if IsSidecar(file) then dir else dir[file := text]
    case RemoveOther(file) => if IsSidecar(file) then dir else dir - {file}
  }

  ghost function AfterAll(dir: Dir, ops: seq<LedgerOp>): Dir {
    if ops == [] then dir else After(AfterAll(dir, ops[..|ops| - 1]), ops[|ops| - 1])
  }

  /** Every directory reached from an empty one is a ledger. */
  lemma {:induction false} ReachableLedger(ops: seq<LedgerOp>)
    ensures Ledger(AfterAll(map[], ops))
  {
    hide Held, Readable, Decimal;
    if ops == [] {
      EmptyLedger();
    } else {
      var dir := AfterAll(map[], ops[..|ops| - 1]);
      ReachableLedger(ops[..|ops| - 1]);
      match ops[|ops| - 1]
      case AllocateOp(name, wrote) =>
        if name !in Held(dir) && LeastFree(Held(dir).Values, PORT_MIN).Some? {
          AllocationKeepsLedger(dir, name, LeastFree(Held(dir).Values, PORT_MIN).value);
        }
      case ReleaseOp(name) => ReleaseKeepsLedger(dir, name);
      case WriteOther(file, text) => if !IsSidecar(file) { OtherFile(dir, file, text); }
      case RemoveOther(file) => if !IsSidecar(file) { OtherFile(dir, file, ""); }
    }
  }

  lemma EmptyLedger()
    ensures Ledger(map[])
  {
  }

  /** A retried create gets the port it held, whatever other VMs came and went between. */
  lemma {:induction false} RetryGetsItsPort(dir: Dir, name: string, ops: seq<LedgerOp>)
    requires Ledger(dir) && name in Held(dir)
    requires forall op <- ops :: op.ReleaseOp? ==> op.name != name
    ensures var dir' := AfterAll(dir, ops);
            Ledger(dir') && name in Held(dir') && Held(dir')[name] == Held(dir)[name]
  {
    hide Held, Readable, Decimal;
    if ops != [] {
      var mid := AfterAll(dir, ops[..|ops| - 1]);
      RetryGetsItsPort(dir, name, ops[..|ops| - 1]);
      var op := ops[|ops| - 1];
      assert op in ops;
      match op
      case AllocateOp(other, wrote) =>
        if other !in Held(mid) && LeastFree(Held(mid).Values, PORT_MIN).Some? {
          AllocationKeepsLedger(mid, other, LeastFree(Held(mid).Values, PORT_MIN).value);
        }
      case ReleaseOp(other) => ReleaseKeepsLedger(mid, other);
      case WriteOther(file, text) => if !IsSidecar(file) { OtherFile(mid, file, text); }
      case RemoveOther(file) => if !IsSidecar(file) { OtherFile(mid, file, ""); }
    }
  }
}
