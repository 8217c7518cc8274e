/**
 * Loading the leaked vector (load_hex_data): the argument is either a path
 * to a text file or the hex string itself; the text is stripped, every
 * whitespace character is removed, the hex digits are read in pairs into
 * bytes, and every byte becomes the field element whose coefficient of z^b
 * is bit b of the byte.
 *
 * Reading a file is I/O: the file system is the parameter `readFile`,
 * None standing for a missing file.  The two exits with an error message
 * are the Err results.
 */
module HexData {
  import opened Wrappers
  import opened GF256

  /** Whitespace as Python's str.split() and str.strip() without arguments see it. */
  predicate IsSpace(c: char) {
    c == ' ' || c == '\t' || c == '\n' || c == '\r' || c == '\U{b}' || c == '\U{c}' ||
    ('\U{1c}' <= c <= '\U{1f}') || c == '\U{85}' || c == '\U{a0}' || c == '\U{1680}' ||
    ('\U{2000}' <= c <= '\U{200a}') || c == '\U{2028}' || c == '\U{2029}' || c == '\U{202f}' ||
    c == '\U{205f}' || c == '\U{3000}'
  }

  predicate NoSpace(s: string) {
    forall i :: 0 <= i < |s| ==> !IsSpace(s[i])
  }

  predicate AllSpace(s: string) {
    forall i :: 0 <= i < |s| ==> IsSpace(s[i])
  }

  /** ''.join(s.split()): the characters of s that are not whitespace, in order. */
  function RemoveSpace(s: string): (t: string)
    ensures NoSpace(t) && |t| <= |s|
  {
    if s == [] then []
    else if IsSpace(s[0]) then RemoveSpace(s[1..])
    else [s[0]] + RemoveSpace(s[1..])
  }

  /** s.lstrip(): leading whitespace dropped. */
  function TrimStart(s: string): (t: string)
    ensures t == [] || !IsSpace(t[0])
  {
    if s != [] && IsSpace(s[0]) then TrimStart(s[1..]) else s
  }

  /** s.rstrip(): trailing whitespace dropped. */
  function TrimEnd(s: string): (t: string)
    ensures t == [] || !IsSpace(t[|t| - 1])
  {
    if s != [] && IsSpace(s[|s| - 1]) then TrimEnd(s[..|s| - 1]) else s
  }

  /** s.strip() */
  function Strip(s: string): string {
    TrimEnd(TrimStart(s))
  }

  // ---------------------------------------------------------------------
  // Hex digits

  /** The value of one hex digit, either case; None for any other character. */
  function HexDigit(c: char): (d: Option<nat>)
    ensures d.Some? <==> '0' <= c <= '9' || 'a' <= c <= 'f' || 'A' <= c <= 'F'
    ensures d.Some? ==> d.value < 16
  {
    if '0' <= c <= '9' then Some(c as nat - '0' as nat)
    else if 'a' <= c <= 'f' then Some(c as nat - 'a' as nat + 10)
    else if 'A' <= c <= 'F' then Some(c as nat - 'A' as nat + 10)
    else None
  }

  predicate AllHex(s: string) {
    forall i :: 0 <= i < |s| ==> HexDigit(s[i]).Some?
  }

  /**
   * bytes.fromhex on a string without whitespace: 2k hex digits give k
   * bytes, byte i being 16 * digit 2i + digit 2i+1; a string of odd length
   * or with a character that is not a hex digit is refused.
   */
  function FromHex(s: string): (r: Option<seq<nat>>)
    ensures r.Some? <==> |s| % 2 == 0 && AllHex(s)
    ensures r.Some? ==> |r.value| == |s| / 2
    ensures r.Some? ==> forall i :: 0 <= i < |r.value| ==>
              r.value[i] == 16 * HexDigit(s[2 * i]).value + HexDigit(s[2 * i + 1]).value
    decreases |s|
  {
    if |s| == 0 then Some([])
    else if |s| == 1 then
      assert !(|s| % 2 == 0);
      None
    else
      var hi := HexDigit(s[0]);
      var lo := HexDigit(s[1]);
      var rest := FromHex(s[2..]);
      if hi.None? || lo.None? || rest.None? then
        assert rest.None? ==> !(|s[2..]| % 2 == 0 && AllHex(s[2..])) ==> !(|s| % 2 == 0 && AllHex(s)) by {
          if |s| % 2 == 0 && AllHex(s) {
            assert forall i :: 0 <= i < |s[2..]| ==> s[2..][i] == s[i + 2];
          }
        }
        None
      else
        Some([16 * hi.value + lo.value] + rest.value)
  }

  /** The two lower-case hex digits of a byte. */
  function HexChar(d: nat): (c: char)
    requires d < 16
    ensures HexDigit(c) == Some(d)
  {
    if d < 10 then ('0' as nat + d) as char else ('a' as nat + d - 10) as char
  }

  /** bytes.hex(): two lower-case digits per byte. */
  function ToHex(bs: seq<nat>): (s: string)
    requires forall i :: 0 <= i < |bs| ==> bs[i] < 256
    ensures |s| == 2 * |bs|
  {
    if bs == [] then [] else [HexChar(bs[0] / 16), HexChar(bs[0] % 16)] + ToHex(bs[1..])
  }

  // ---------------------------------------------------------------------
  // load_hex_data

  function EndsWith(s: string, suffix: string): bool {
    |suffix| <= |s| && s[|s| - |suffix|..] == suffix
  }

  /** Only a short argument with a path separator or a .txt ending is read as a file name. */
  predicate LooksLikePath(input: string) {
    |input| < 200 && ('/' in input || '\\' in input || EndsWith(input, ".txt"))
  }

  /** The field element a byte (or any integer) stands for: K(ZZ(x).digits(base=2)). */
  function Elements(bs: seq<nat>): (es: seq<Elem>)
    ensures |es| == |bs| && forall i :: 0 <= i < |bs| ==> es[i] == FromInt(bs[i])
  {
    seq(|bs|, i requires 0 <= i < |bs| => FromInt(bs[i]))
  }

  /** The hex text, stripped, with all whitespace removed, decoded to field elements. */
  function DecodeText(text: string): Result<seq<Elem>> {
    match FromHex(RemoveSpace(text))
    case None => Err("Invalid hex data")
    case Some(bs) => Ok(Elements(bs))
  }

  function LoadHexData(input: string, readFile: string -> Option<string>): Result<seq<Elem>> {
    if LooksLikePath(input) then
      match readFile(input)
      case None => Err("File not found")
      case Some(contents) => DecodeText(Strip(contents))
    else
      DecodeText(Strip(input))
  }

  // ---------------------------------------------------------------------
  // Whitespace removal

  /** Removing whitespace distributes over concatenation. */
  lemma {:induction false} RemoveSpaceConcat(s: string, t: string)
    ensures RemoveSpace(s + t) == RemoveSpace(s) + RemoveSpace(t)
    decreases |s|
  {
    if s != [] {
      assert (s + t)[1..] == s[1..] + t;
      RemoveSpaceConcat(s[1..], t);
    } else {
      assert s + t == t;
    }
  }

  /** A string without whitespace is left as it is (so removal is idempotent). */
  lemma {:induction false} RemoveSpaceNoSpace(s: string)
    requires NoSpace(s)
    ensures RemoveSpace(s) == s
    decreases |s|
  {
    if s != [] {
      RemoveSpaceNoSpace(s[1..]);
    }
  }

  lemma {:induction false} RemoveSpaceAllSpace(s: string)
    requires AllSpace(s)
    ensures RemoveSpace(s) == []
    decreases |s|
  {
    if s != [] {
      RemoveSpaceAllSpace(s[1..]);
    }
  }

  lemma {:induction false} TrimStartRemoved(s: string)
    ensures RemoveSpace(TrimStart(s)) == RemoveSpace(s)
    decreases |s|
  {
    if s != [] && IsSpace(s[0]) {
      TrimStartRemoved(s[1..]);
    }
  }

  lemma {:induction false} TrimEndRemoved(s: string)
    ensures RemoveSpace(TrimEnd(s)) == RemoveSpace(s)
    decreases |s|
  {
    if s != [] && IsSpace(s[|s| - 1]) {
      var init := s[..|s| - 1];
      assert s == init + [s[|s| - 1]];
      RemoveSpaceConcat(init, [s[|s| - 1]]);
      TrimEndRemoved(init);
    }
  }

  /** Stripping first changes nothing once all whitespace is removed. */
  lemma StripRemoved(s: string)
    ensures RemoveSpace(Strip(s)) == RemoveSpace(s)
  {
    TrimStartRemoved(s);
    TrimEndRemoved(TrimStart(s));
  }

  // ---------------------------------------------------------------------
  // What load_hex_data promises

  /** The text load_hex_data decodes, before stripping: the file's contents or the argument itself. */
  function RawText(input: string, readFile: string -> Option<string>): Option<string> {
    if LooksLikePath(input) then readFile(input) else Some(input)
  }

  /** An argument of 200 characters or more is always decoded as hex, whatever the file system holds. */
  lemma LongInputIsHex(input: string, readFile: string -> Option<string>)
    requires |input| >= 200
    ensures LoadHexData(input, readFile) == DecodeText(input)
  {
    StripRemoved(input);
  }

  /**
   * The loaded vector has one element per pair of hex digits of the text c
   * with its whitespace removed: element i is the byte
   * 16 * hex(c[2i]) + hex(c[2i+1]), bit b of it being the coefficient of z^b.
   */
  lemma LoadedBytes(input: string, readFile: string -> Option<string>)
    requires LoadHexData(input, readFile).Ok?
    ensures RawText(input, readFile).Some?
    ensures var c := RemoveSpace(RawText(input, readFile).value);
            var es := LoadHexData(input, readFile).value;
            |c| == 2 * |es| && AllHex(c) &&
            forall i :: 0 <= i < |es| ==> Rank(es[i]) == 16 * HexDigit(c[2 * i]).value + HexDigit(c[2 * i + 1]).value
  {
    var raw := RawText(input, readFile).value;
    StripRemoved(raw);
    var bs := FromHex(RemoveSpace(raw)).value;
    forall i | 0 <= i < |bs|
      ensures Rank(FromInt(bs[i])) == bs[i]
    {
      FromIntRank(bs[i]);
    }
  }

  /**
   * load_hex_data fails exactly when the file is missing, or the text
   * without whitespace has odd length or a character that is not a hex digit.
   */
  lemma LoadErrors(input: string, readFile: string -> Option<string>)
    ensures LoadHexData(input, readFile).Err? <==>
            RawText(input, readFile).None? ||
            |RemoveSpace(RawText(input, readFile).value)| % 2 == 1 ||
            !AllHex(RemoveSpace(RawText(input, readFile).value))
  {
    if RawText(input, readFile).Some? {
      StripRemoved(RawText(input, readFile).value);
    }
  }

  /** Two hex digits in front of a decodable string decode to one more byte in front. */
  lemma FromHexCons(hi: char, lo: char, rest: string)
    requires HexDigit(hi).Some? && HexDigit(lo).Some? && FromHex(rest).Some?
    ensures FromHex([hi, lo] + rest) == Some([16 * HexDigit(hi).value + HexDigit(lo).value] + FromHex(rest).value)
  {
    var s := [hi, lo] + rest;
    assert s[2..] == rest;
  }

  lemma {:induction false} ToHexDigits(bs: seq<nat>)
    requires forall i :: 0 <= i < |bs| ==> bs[i] < 256
    ensures FromHex(ToHex(bs)) == Some(bs)
    ensures AllHex(ToHex(bs))
    decreases |bs|
  {
    if bs != [] {
      var rest := ToHex(bs[1..]);
      ToHexDigits(bs[1..]);
      var hi, lo := HexChar(bs[0] / 16), HexChar(bs[0] % 16);
      var s := [hi, lo] + rest;
      assert ToHex(bs) == s;
      FromHexCons(hi, lo, rest);
      assert [bs[0]] + bs[1..] == bs;
    }
  }

  /** Hex digits are not whitespace. */
  lemma AllHexNoSpace(s: string)
    requires AllHex(s)
    ensures NoSpace(s)
  {
    forall i | 0 <= i < |s|
      ensures !IsSpace(s[i])
    {
      assert HexDigit(s[i]).Some?;
    }
  }

  lemma NoHexPath(s: string)
    requires AllHex(s)
    ensures !LooksLikePath(s)
  {
    forall i | 0 <= i < |s|
      ensures s[i] != '/' && s[i] != '\\' && s[i] != '.'
    {
      assert HexDigit(s[i]).Some?;
    }
    if |s| >= 4 {
      assert s[|s| - 4..][0] == s[|s| - 4];
    }
  }

  /** Round trip: the hex text of bytes loads back as those bytes, in the field. */
  lemma LoadToHex(bs: seq<nat>, readFile: string -> Option<string>)
    requires forall i :: 0 <= i < |bs| ==> bs[i] < 256
    ensures LoadHexData(ToHex(bs), readFile) == Ok(Elements(bs))
    ensures forall i :: 0 <= i < |bs| ==> Rank(LoadHexData(ToHex(bs), readFile).value[i]) == bs[i]
  {
    var s := ToHex(bs);
    ToHexDigits(bs);
    NoHexPath(s);
    AllHexNoSpace(s);
    StripRemoved(s);
    RemoveSpaceNoSpace(s);
    forall i | 0 <= i < |bs|
      ensures Rank(FromInt(bs[i])) == bs[i]
    {
      FromIntRank(bs[i]);
    }
  }
}
