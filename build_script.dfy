/**
 * The build script (build.py): before compiling it rewrites the three
 * credential lines of src/consts.rs with the Wi-Fi network, the password and
 * a fresh 32-byte key, and after compiling it rewrites the same lines back to
 * the committed placeholders. Lines are strings with their trailing newline.
 */
module BuildScript {
  import opened Consts

  const NETWORK_PREFIX: string := "pub const WIFI_NETWORK"
  const PASSWORD_PREFIX: string := "pub const WIFI_PASSWORD"
  const KEY_PREFIX: string := "pub const SECRET_HASH_KEY"

  /** The text of the key line before and after the list of values. */
  const KEY_HEAD: string := "pub const SECRET_HASH_KEY: &[u8; 32] = &["
  const KEY_TAIL: string := "];\n"

  /** The lines the revert pass writes back. */
  const NETWORK_PLACEHOLDER: string := "pub const WIFI_NETWORK: &str = \"ssid\";\n"
  const PASSWORD_PLACEHOLDER: string := "pub const WIFI_PASSWORD: &str = \"password\";\n"
  const KEY_PLACEHOLDER: string := "pub const SECRET_HASH_KEY: &[u8; 32] = &[0_u8; 32];\n"

  /** The separator of `", ".join`. */
  const SEPARATOR: string := ", "

  /** The line written for the Wi-Fi network: the ssid in double quotes. */
  function NetworkLine(ssid: string): string
  {
    "pub const WIFI_NETWORK: &str = \"" + ssid + "\";\n"
  }

  /** The line written for the Wi-Fi password: the password in double quotes. */
  function PasswordLine(password: string): string
  {
    "pub const WIFI_PASSWORD: &str = \"" + password + "\";\n"
  }

  function DigitChar(d: nat): char
    requires d < 10
  {
    ['0', '1', '2', '3', '4', '5', '6', '7', '8', '9'][d]
  }

  predicate IsDigit(c: char)
  {
    '0' <= c <= '9'
  }

  function DigitValue(c: char): nat
    requires IsDigit(c)
  {
    (c as int - '0' as int) as nat
  }

  /** `str(n)`: the decimal digits of `n`, most significant first, without leading zeros. */
  function Decimal(n: nat): (s: string)
    ensures |s| >= 1 && forall i | 0 <= i < |s| :: IsDigit(s[i])
  {
    if n < 10 then [DigitChar(n)] else Decimal(n / 10) + [DigitChar(n % 10)]
  }

  /** The number a run of decimal digits denotes. */
  function ValueOf(s: string): nat
    requires forall i | 0 <= i < |s| :: IsDigit(s[i])
  {
    if s == [] then 0 else ValueOf(s[..|s| - 1]) * 10 + DigitValue(s[|s| - 1])
  }

  /** `", ".join(str(num) for num in values)`. */
  function JoinDecimals(values: seq<nat>): string
  {
    if values == [] then ""
    else if |values| == 1 then Decimal(values[0])
    else Decimal(values[0]) + SEPARATOR + JoinDecimals(values[1..])
  }

  /** The length of the run of digits that `s` starts with. */
  function DigitRun(s: string): (k: nat)
    ensures k <= |s| && forall i | 0 <= i < k :: IsDigit(s[i])
    ensures k < |s| ==> !IsDigit(s[k])
  {
    if s == [] || !IsDigit(s[0]) then 0 else 1 + DigitRun(s[1..])
  }

  /** Reads a list of decimals separated by ", " (what a reader of the key line sees). */
  function ParseList(s: string): seq<nat>
    decreases |s|
  {
    if s == [] then []
    else
      var k := DigitRun(s);
      [ValueOf(s[..k])] + if k + 2 <= |s| then ParseList(s[k + 2..]) else []
  }

  /** The line written for the key: its 32 bytes in decimal, separated by ", ". */
  function KeyLine(key: seq<byte>): string
  {
    KEY_HEAD + JoinDecimals(key) + KEY_TAIL
  }

  /** What the apply pass makes of one line (the three checks look at the line as read). */
  function ApplyLine(line: string, ssid: string, password: string, key: seq<byte>): string
  {
    if KEY_PREFIX <= line then KeyLine(key)
    else if PASSWORD_PREFIX <= line then PasswordLine(password)
    else if NETWORK_PREFIX <= line then NetworkLine(ssid)
    else line
  }

  /** What the revert pass makes of one line. */
  function RevertLine(line: string): string
  {
    if KEY_PREFIX <= line then KEY_PLACEHOLDER
    else if PASSWORD_PREFIX <= line then PASSWORD_PLACEHOLDER
    else if NETWORK_PREFIX <= line then NETWORK_PLACEHOLDER
    else line
  }

  /** Whether a line is one of the three credential lines. */
  predicate Credential(line: string)
  {
    NETWORK_PREFIX <= line || PASSWORD_PREFIX <= line || KEY_PREFIX <= line
  }

  /** The apply pass over the lines of src/consts.rs, rewriting them in place. */
  method Apply(lines: array<string>, ssid: string, password: string, secretKey: seq<byte>)
    modifies lines
    ensures forall i | 0 <= i < lines.Length :: lines[i] == ApplyLine(old(lines[i]), ssid, password, secretKey)
  {
    for index := 0 to lines.Length
      invariant forall i | 0 <= i < index :: lines[i] == ApplyLine(old(lines[i]), ssid, password, secretKey)
      invariant forall i | index <= i < lines.Length :: lines[i] == old(lines[i])
    {
      var line := lines[index];
      if NETWORK_PREFIX <= line {
        lines[index] := NetworkLine(ssid);
      }
      if PASSWORD_PREFIX <= line {
        lines[index] := PasswordLine(password);
      }
      if KEY_PREFIX <= line {
        lines[index] := KeyLine(secretKey);
      }
    }
  }

  /** The revert pass, rewriting the lines in place. */
  method Revert(lines: array<string>)
    modifies lines
    ensures forall i | 0 <= i < lines.Length :: lines[i] == RevertLine(old(lines[i]))
  {
    for index := 0 to lines.Length
      invariant forall i | 0 <= i < index :: lines[i] == RevertLine(old(lines[i]))
      invariant forall i | index <= i < lines.Length :: lines[i] == old(lines[i])
    {
      var line := lines[index];
      if NETWORK_PREFIX <= line {
        lines[index] := NETWORK_PLACEHOLDER;
      }
      if PASSWORD_PREFIX <= line {
        lines[index] := PASSWORD_PLACEHOLDER;
      }
      if KEY_PREFIX <= line {
        lines[index] := KEY_PLACEHOLDER;
      }
    }
  }

  /**
   * The script's rewrite of src/consts.rs: the apply pass, whose lines are
   * written out for the compiler, then the revert pass over the same list.
   * The file ends as it began exactly when its credential lines were the
   * committed placeholders.
   */
  method Build(lines: array<string>, ssid: string, password: string, secretKey: seq<byte>) returns (compiled: seq<string>)
    modifies lines
    ensures |compiled| == lines.Length
    ensures forall i | 0 <= i < lines.Length :: compiled[i] == ApplyLine(old(lines[i]), ssid, password, secretKey)
    ensures forall i | 0 <= i < lines.Length :: lines[i] == RevertLine(compiled[i])
    ensures lines[..] == old(lines[..]) <==> forall i | 0 <= i < lines.Length :: Committed(old(lines[i]))
  {
    ghost var original := lines[..];
    Apply(lines, ssid, password, secretKey);
    compiled := lines[..];
    Revert(lines);
    forall i | 0 <= i < lines.Length
      ensures lines[i] == original[i] <==> Committed(original[i])
    {
      RevertUndoesApply(original[i], ssid, password, secretKey);
    }
    if lines[..] == original {
      forall i | 0 <= i < lines.Length
        ensures Committed(original[i])
      {
        assert lines[..][i] == original[i];
      }
    }
  }

  /** No line starts with two of the prefixes, so at most one rewrite applies to it. */
  lemma PrefixesExclusive(line: string)
    ensures !(NETWORK_PREFIX <= line && PASSWORD_PREFIX <= line)
    ensures !(NETWORK_PREFIX <= line && KEY_PREFIX <= line)
    ensures !(PASSWORD_PREFIX <= line && KEY_PREFIX <= line)
  {
    if NETWORK_PREFIX <= line {
      assert line[10] == NETWORK_PREFIX[10] == 'W' && line[15] == NETWORK_PREFIX[15] == 'N';
    }
    if PASSWORD_PREFIX <= line {
      assert line[10] == PASSWORD_PREFIX[10] == 'W' && line[15] == PASSWORD_PREFIX[15] == 'P';
    }
  }

  /** A string that starts with `p + rest` starts with `p`. */
  lemma PrefixOfHead(p: string, head: string, rest: string)
    requires p <= head
    ensures p <= head + rest
  {
    assert (head + rest)[..|p|] == head[..|p|];
  }

  /**
   * Every replacement line starts with the prefix it replaced and with no
   * other, so the apply pass keeps the set of credential lines: a line
   * starts with a prefix after the pass exactly when it did before.
   */
  lemma ApplyKeepsPrefixes(line: string, ssid: string, password: string, key: seq<byte>)
    ensures NETWORK_PREFIX <= ApplyLine(line, ssid, password, key) <==> NETWORK_PREFIX <= line
    ensures PASSWORD_PREFIX <= ApplyLine(line, ssid, password, key) <==> PASSWORD_PREFIX <= line
    ensures KEY_PREFIX <= ApplyLine(line, ssid, password, key) <==> KEY_PREFIX <= line
    ensures !Credential(line) ==> ApplyLine(line, ssid, password, key) == line
  {
    var after := ApplyLine(line, ssid, password, key);
    PrefixOfHead(NETWORK_PREFIX, "pub const WIFI_NETWORK: &str = \"", ssid + "\";\n");
    assert NetworkLine(ssid) == "pub const WIFI_NETWORK: &str = \"" + (ssid + "\";\n");
    PrefixOfHead(PASSWORD_PREFIX, "pub const WIFI_PASSWORD: &str = \"", password + "\";\n");
    assert PasswordLine(password) == "pub const WIFI_PASSWORD: &str = \"" + (password + "\";\n");
    PrefixOfHead(KEY_PREFIX, KEY_HEAD, JoinDecimals(key) + KEY_TAIL);
    assert KeyLine(key) == KEY_HEAD + (JoinDecimals(key) + KEY_TAIL);
    PrefixesExclusive(line);
    PrefixesExclusive(after);
  }

  /** Each placeholder starts with its own prefix. */
  lemma PlaceholdersKeepPrefixes()
    ensures NETWORK_PREFIX <= NETWORK_PLACEHOLDER && PASSWORD_PREFIX <= PASSWORD_PLACEHOLDER && KEY_PREFIX <= KEY_PLACEHOLDER
  {
    assert NETWORK_PLACEHOLDER[..|NETWORK_PREFIX|] == NETWORK_PREFIX;
    assert PASSWORD_PLACEHOLDER[..|PASSWORD_PREFIX|] == PASSWORD_PREFIX;
    assert KEY_PLACEHOLDER[..|KEY_PREFIX|] == KEY_PREFIX;
  }

  /** Whether a line reads as committed: the placeholder of its prefix, or no credential line at all. */
  predicate Committed(line: string)
  {
    if KEY_PREFIX <= line then line == KEY_PLACEHOLDER
    else if PASSWORD_PREFIX <= line then line == PASSWORD_PLACEHOLDER
    else if NETWORK_PREFIX <= line then line == NETWORK_PLACEHOLDER
    else true
  }

  /**
   * The revert pass undoes the apply pass on a committed line, whatever
   * credentials were applied; a line holding other credentials comes back
   * as the placeholder instead.
   */
  lemma RevertUndoesApply(line: string, ssid: string, password: string, key: seq<byte>)
    ensures RevertLine(ApplyLine(line, ssid, password, key)) == line <==> Committed(line)
  {
    ApplyKeepsPrefixes(line, ssid, password, key);
    PlaceholdersKeepPrefixes();
    PrefixesExclusive(line);
  }

  /** The committed lines of src/consts.rs are the placeholders, and they spell the constants the firmware is built with. */
  lemma PlaceholdersAreCommittedConstants()
    ensures NETWORK_PLACEHOLDER == NetworkLine(WIFI_NETWORK)
    ensures PASSWORD_PLACEHOLDER == PasswordLine(WIFI_PASSWORD)
    ensures Committed(NETWORK_PLACEHOLDER) && Committed(PASSWORD_PLACEHOLDER) && Committed(KEY_PLACEHOLDER)
  {
    NetworkPlaceholderIsLine();
    PasswordPlaceholderIsLine();
    PlaceholdersKeepPrefixes();
    PrefixesExclusive(NETWORK_PLACEHOLDER);
    PrefixesExclusive(PASSWORD_PLACEHOLDER);
    PrefixesExclusive(KEY_PLACEHOLDER);
  }

  /** The committed network line spells WIFI_NETWORK. */
  lemma NetworkPlaceholderIsLine()
    ensures NETWORK_PLACEHOLDER == NetworkLine(WIFI_NETWORK)
  {
  }

  /** The committed password line spells WIFI_PASSWORD. */
  lemma PasswordPlaceholderIsLine()
    ensures PASSWORD_PLACEHOLDER == PasswordLine(WIFI_PASSWORD)
  {
  }

  /** Reading the digits of `n` gives `n` back. */
  lemma {:induction false} DecimalRoundTrip(n: nat)
    ensures ValueOf(Decimal(n)) == n
  {
    if n >= 10 {
      DecimalRoundTrip(n / 10);
      var s := Decimal(n);
      assert s[..|s| - 1] == Decimal(n / 10);
    }
  }

  /** The digit run of `Decimal(n)` followed by text that starts with a non-digit is exactly `Decimal(n)`. */
  lemma {:induction false} DigitRunOfDecimal(d: string, rest: string)
    requires forall i | 0 <= i < |d| :: IsDigit(d[i])
    requires rest == [] || !IsDigit(rest[0])
    ensures DigitRun(d + rest) == |d|
    decreases |d|
  {
    if d != [] {
      assert (d + rest)[1..] == d[1..] + rest;
      DigitRunOfDecimal(d[1..], rest);
    } else {
      assert d + rest == rest;
    }
  }

  /** Reading back a ", "-joined list of decimals gives the list. */
  lemma {:induction false} JoinDecimalsRoundTrip(values: seq<nat>)
    ensures ParseList(JoinDecimals(values)) == values
    decreases |values|
  {
    if values != [] {
      var d := Decimal(values[0]);
      DecimalRoundTrip(values[0]);
      if |values| == 1 {
        DigitRunOfDecimal(d, []);
        assert d + [] == d;
        assert d[..|d|] == d;
      } else {
        var rest := JoinDecimals(values[1..]);
        var s := d + SEPARATOR + rest;
        assert s == d + (SEPARATOR + rest);
        DigitRunOfDecimal(d, SEPARATOR + rest);
        assert s[..|d|] == d;
        assert s[|d| + 2..] == rest;
        JoinDecimalsRoundTrip(values[1..]);
      }
    }
  }

  /**
   * The key line holds the key's bytes, in order, as decimals in 0..255
   * separated by ", ": reading the list between the brackets gives the key.
   */
  lemma KeyLineCarriesKey(key: seq<byte>)
    requires |key| == 32
    ensures var line := KeyLine(key);
      |line| >= |KEY_HEAD| + |KEY_TAIL| && line[..|KEY_HEAD|] == KEY_HEAD && line[|line| - |KEY_TAIL|..] == KEY_TAIL
    ensures var line := KeyLine(key);
      ParseList(line[|KEY_HEAD|..|line| - |KEY_TAIL|]) == key
    ensures forall v | v in ParseList(JoinDecimals(key)) :: v < 256
  {
    var line := KeyLine(key);
    assert line[|KEY_HEAD|..|line| - |KEY_TAIL|] == JoinDecimals(key);
    JoinDecimalsRoundTrip(key);
  }
}
