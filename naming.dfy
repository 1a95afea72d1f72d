/** The fresh names the manglers draw. Every `Math.random()` call is one number taken
    from an oracle sequence: `Math.floor(Math.random() * k)` is the number modulo `k`,
    and `Math.random().toString(16).substr(2, 6)` is the number written as six
    lower-case hexadecimal digits. */
module Naming {
  import opened Text

  /** How a fresh name is drawn:
      `Initial`  — `'_' + name.charAt(0) + Math.floor(Math.random() * 100)`;
      `SixHex`   — `'_0x' + Math.random().toString(16).substr(2, 6)`;
      `HexRun(n)`— `'_0x'` followed by `n` draws of `Math.floor(Math.random() * 16).toString(16)`. */
  datatype Scheme = Initial | SixHex | HexRun(n: nat)

  /** How many numbers one name takes from the oracle. */
  function Draws(s: Scheme): (r: nat)
    ensures r >= 1 || s == HexRun(0)
  {
    match s
    case Initial => 1
    case SixHex => 1
    case HexRun(n) => n
  }

  /** `s.charAt(0)`: the first character, or the empty text. */
  function CharAt0(s: string): (r: string)
    ensures |r| <= 1 && (s != [] ==> r == [s[0]])
  {
    if s == [] then [] else [s[0]]
  }

  /** `v` written with `n` lower-case hexadecimal digits, most significant first
      (the number modulo 16^n). */
  function HexDigits(v: nat, n: nat): (r: string)
    ensures |r| == n && forall i :: 0 <= i < n ==> IsHexChar(r[i])
  {
    if n == 0 then []
    else
      HexCharIsHex(v % 16);
      HexDigits(v / 16, n - 1) + [HexChar(v % 16)]
  }

  /** One hexadecimal digit per draw. */
  function HexRunText(ds: seq<nat>): (r: string)
    ensures |r| == |ds| && forall i :: 0 <= i < |ds| ==> IsHexChar(r[i])
  {
    if ds == [] then []
    else
      HexCharIsHex(ds[|ds| - 1] % 16);
      HexRunText(ds[..|ds| - 1]) + [HexChar(ds[|ds| - 1] % 16)]
  }

  /** The name for the draws `ds` (exactly `Draws(s)` of them) and the original name. */
  function NameFrom(s: Scheme, name: string, ds: seq<nat>): string
    requires |ds| == Draws(s)
  {
    match s
    case Initial => "_" + CharAt0(name) + Decimal(ds[0] % 100)
    case SixHex => "_0x" + HexDigits(ds[0], 6)
    case HexRun(_) => "_0x" + HexRunText(ds)
  }

  /** Names of the `Initial` scheme for a name starting with `name.charAt(0)`. */
  predicate IsInitialName(name: string, n: string) {
    exists k :: 0 <= k < 100 && n == "_" + CharAt0(name) + Decimal(k)
  }

  /** `_0x` followed by `len` hexadecimal digits. */
  predicate IsHexName(n: string, len: nat) {
    |n| == 3 + len && n[..3] == "_0x" && forall i :: 3 <= i < |n| ==> IsHexChar(n[i])
  }

  /** The shape of every drawn name: an `Initial` name is `_`, the first character and a
      number below 100; the others are `_0x` and six or `n` hexadecimal digits. */
  lemma NameShape(s: Scheme, name: string, ds: seq<nat>)
    requires |ds| == Draws(s)
    ensures s == Initial ==> IsInitialName(name, NameFrom(s, name, ds))
    ensures s == SixHex ==> IsHexName(NameFrom(s, name, ds), 6)
    ensures s.HexRun? ==> IsHexName(NameFrom(s, name, ds), s.n)
  {
    var r := NameFrom(s, name, ds);
    match s
    case Initial =>
      assert r == "_" + CharAt0(name) + Decimal(ds[0] % 100);
    case SixHex =>
      var h := HexDigits(ds[0], 6);
      assert r == "_0x" + h && r[..3] == "_0x";
      assert forall i :: 3 <= i < |r| ==> r[i] == h[i - 3];
    case HexRun(n) =>
      var h := HexRunText(ds);
      assert r == "_0x" + h && r[..3] == "_0x";
      assert forall i :: 3 <= i < |r| ==> r[i] == h[i - 3];
  }

  /** The hundred `Initial` names for one first character. */
  function InitialNames(name: string): (r: set<string>)
    ensures forall n :: n in r <==> IsInitialName(name, n)
  {
    set k | 0 <= k < 100 :: "_" + CharAt0(name) + Decimal(k)
  }
}
