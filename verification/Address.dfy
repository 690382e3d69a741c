// address.go: printing and parsing addresses of the form <hex key>@yggmail.

module Address {
  import opened Types
  import opened Text

  const DOMAIN := "yggmail"
  const DOMAIN_ALIAS := "yggmail.local"
  const KEY_SIZE: nat := 32

  // ----- hex -----

  type nibble = n: nat | n < 16

  function HexDigit(n: nibble): char {
    "0123456789abcdef"[n]
  }

  function HexValue(c: char): Option<nibble> {
    if '0' <= c <= '9' then Some(c as int - '0' as int)
    else if 'a' <= c <= 'f' then Some(c as int - 'a' as int + 10)
    else if 'A' <= c <= 'F' then Some(c as int - 'A' as int + 10)
    else None
  }

  /** hex.EncodeToString. */
  function Encode(bytes: Bytes): string {
    if bytes == [] then "" else [HexDigit(bytes[0] / 16), HexDigit(bytes[0] % 16)] + Encode(bytes[1..])
  }

  /** hex.DecodeString. */
  function Decode(s: string): Option<Bytes> {
    if s == [] then Some([])
    else if |s| == 1 || HexValue(s[0]).None? || HexValue(s[1]).None? then None
    else
      match Decode(s[2..])
      case None => None
      case Some(rest) => Some([16 * HexValue(s[0]).value + HexValue(s[1]).value] + rest)
  }

  // ----- strings -----

  /** unicode.ToLower, for every character that it maps into the letters of the two domain names. */
  function ToLowerChar(c: char): char {
    if 'A' <= c <= 'Z' then (c as int + 32) as char else if c == '\U{130}' then 'i' else c
  }

  function ToLower(s: string): string {
    if s == [] then [] else [ToLowerChar(s[0])] + ToLower(s[1..])
  }

  /** strings.LastIndex for one character; -1 when absent. */
  function LastIndex(s: string, c: char): (at: int)
    ensures -1 <= at < |s|
  {
    if s == [] then -1 else if s[|s| - 1] == c then |s| - 1 else LastIndex(s[..|s| - 1], c)
  }

  // ----- addresses -----

  predicate IsValidDomain(domain: string) {
    var d := ToLower(Trim(domain));
    d == DOMAIN || d == DOMAIN_ALIAS
  }

  function CreateAddress(pk: Bytes): string {
    Encode(pk) + "@" + DOMAIN
  }

  /** copy(make([]byte, 32), bytes): cut off or padded with zeros. */
  function FitKey(bytes: Bytes): Bytes {
    seq(KEY_SIZE, i requires 0 <= i => if i < |bytes| then bytes[i] else 0)
  }

  function ParseAddress(email: string): Result<Bytes> {
    var e := Trim(email);
    var at := LastIndex(e, '@');
    if at <= 0 then Err(BadAddress)
    else if !IsValidDomain(e[at + 1..]) then Err(BadAddress)
    else
      match Decode(e[..at])
      case None => Err(BadAddress)
      case Some(bytes) => Ok(FitKey(bytes))
  }

  // ----- hex lemmas -----

  lemma HexDigitValue(n: nibble)
    ensures HexValue(HexDigit(n)) == Some(n) && ToLowerChar(HexDigit(n)) == HexDigit(n)
  {
  }

  lemma HexValueDigit(c: char)
    requires HexValue(c).Some?
    ensures HexDigit(HexValue(c).value) == ToLowerChar(c) && c != '@' && !IsSpace(c)
  {
    PrintableIsNotSpace(c);
  }

  /** A character spells a digit exactly when it lowers to it. */
  lemma HexSpells(c: char, n: nibble)
    ensures HexValue(c) == Some(n) <==> ToLowerChar(c) == HexDigit(n)
  {
  }

  /** Each byte prints as two digits, the high half first. */
  lemma {:induction false} EncodeAt(bytes: Bytes, i: nat)
    requires i < |bytes|
    ensures |Encode(bytes)| == 2 * |bytes|
    ensures Encode(bytes)[2 * i] == "0123456789abcdef"[bytes[i] / 16]
    ensures Encode(bytes)[2 * i + 1] == "0123456789abcdef"[bytes[i] % 16]
  {
    if i > 0 {
      EncodeAt(bytes[1..], i - 1);
    } else {
      EncodeIsLower(bytes);
    }
  }

  lemma PrintableIsNotSpace(c: char)
    requires 0x21 <= c as int <= 0x7E
    ensures !IsSpace(c)
  {
    assert forall i :: 0 <= i < |SPACES| ==> SPACES[i] as int < 0x21 || SPACES[i] as int > 0x7E;
  }

  lemma ToLowerTwo(s: string)
    requires |s| >= 2
    ensures ToLower(s) == [ToLowerChar(s[0]), ToLowerChar(s[1])] + ToLower(s[2..])
  {
    assert s[1..][1..] == s[2..];
  }

  lemma TwoAndRest(a: char, b: char, t: string, c: char, d: char, u: string)
    ensures [a, b] + t == [c, d] + u <==> a == c && b == d && t == u
  {
    assert ([a, b] + t)[2..] == t && ([c, d] + u)[2..] == u;
    assert ([a, b] + t)[0] == a && ([a, b] + t)[1] == b && ([c, d] + u)[0] == c && ([c, d] + u)[1] == d;
  }

  lemma OneAndRest(a: byte, t: Bytes, b: byte, u: Bytes)
    ensures [a] + t == [b] + u <==> a == b && t == u
  {
    assert ([a] + t)[1..] == t && ([b] + u)[1..] == u;
    assert ([a] + t)[0] == a && ([b] + u)[0] == b;
  }

  /** Any spelling of a key's hex, in either case, decodes to the key; nothing else decodes to it. */
  lemma {:induction false} DecodeSpells(s: string, bytes: Bytes)
    ensures Decode(s) == Some(bytes) <==> ToLower(s) == Encode(bytes)
  {
    ToLowerAt(s);
    EncodeIsLower(bytes);
    if |s| >= 2 && bytes != [] {
      DecodeSpells(s[2..], bytes[1..]);
      DecodeStep(s, bytes);
    }
  }

  lemma Nibbles(a: nibble, b: nibble, x: byte)
    ensures 16 * a + b == x <==> a == x / 16 && b == x % 16
  {
  }

  lemma DecodeCons(s: string, bytes: Bytes)
    requires |s| >= 2 && bytes != []
    ensures Decode(s) == Some(bytes) <==>
      HexValue(s[0]) == Some(bytes[0] / 16) && HexValue(s[1]) == Some(bytes[0] % 16)
      && Decode(s[2..]) == Some(bytes[1..])
  {
    if HexValue(s[0]).Some? && HexValue(s[1]).Some? && Decode(s[2..]).Some? {
      var a: int, b: int := HexValue(s[0]).value, HexValue(s[1]).value;
      var rest := Decode(s[2..]).value;
      assert Decode(s) == Some([16 * a + b] + rest);
      OneAndRest(16 * a + b, rest, bytes[0], bytes[1..]);
      Nibbles(a, b, bytes[0]);
      assert [bytes[0]] + bytes[1..] == bytes;
    }
  }

  lemma DecodeStep(s: string, bytes: Bytes)
    requires |s| >= 2 && bytes != []
    requires Decode(s[2..]) == Some(bytes[1..]) <==> ToLower(s[2..]) == Encode(bytes[1..])
    ensures Decode(s) == Some(bytes) <==> ToLower(s) == Encode(bytes)
  {
    var hi, lo := bytes[0] / 16, bytes[0] % 16;
    HexSpells(s[0], hi);
    HexSpells(s[1], lo);
    ToLowerTwo(s);
    DecodeCons(s, bytes);
    TwoAndRest(ToLowerChar(s[0]), ToLowerChar(s[1]), ToLower(s[2..]), HexDigit(hi), HexDigit(lo), Encode(bytes[1..]));
    assert Encode(bytes) == [HexDigit(hi), HexDigit(lo)] + Encode(bytes[1..]);
  }

  lemma {:induction false} EncodeInjective(a: Bytes, b: Bytes)
    requires Encode(a) == Encode(b)
    ensures a == b
  {
    EncodeIsLower(a);
    DecodeSpells(Encode(a), a);
    DecodeSpells(Encode(a), b);
  }

  lemma {:induction false} EncodeIsLower(bytes: Bytes)
    ensures ToLower(Encode(bytes)) == Encode(bytes) && |Encode(bytes)| == 2 * |bytes|
  {
    if bytes != [] {
      EncodeIsLower(bytes[1..]);
      HexDigitValue(bytes[0] / 16);
      HexDigitValue(bytes[0] % 16);
      var s := Encode(bytes);
      assert s[1..][1..] == Encode(bytes[1..]);
    }
  }

  lemma {:induction false} ToLowerAt(s: string)
    ensures |ToLower(s)| == |s|
    ensures forall i :: 0 <= i < |s| ==> ToLower(s)[i] == ToLowerChar(s[i])
  {
    if s != [] {
      ToLowerAt(s[1..]);
    }
  }

  lemma {:induction false} LastIndexIs(s: string, c: char, t: string)
    requires !Has(t, c)
    ensures LastIndex(s + [c] + t, c) == |s|
  {
    var u := s + [c] + t;
    if t != [] {
      assert u[..|u| - 1] == s + [c] + t[..|t| - 1];
      assert u[|u| - 1] == t[|t| - 1];
      LastIndexIs(s, c, t[..|t| - 1]);
    }
  }

  predicate AllSpaces(s: string) {
    forall i :: 0 <= i < |s| ==> IsSpace(s[i])
  }

  lemma {:induction false} TrimPadded(left: string, core: string, right: string)
    requires AllSpaces(left) && AllSpaces(right) && core != "" && Trimmed(core)
    ensures Trim(left + core + right) == core
  {
    var s := left + core + right;
    if left != [] {
      assert s[0] == left[0] && s[1..] == left[1..] + core + right;
      TrimPadded(left[1..], core, right);
    } else {
      assert s == core + right;
      assert s[0] == core[0];
      TrimRightPadded(core, right);
    }
  }

  lemma {:induction false} TrimRightPadded(core: string, right: string)
    requires AllSpaces(right) && core != "" && Trimmed(core)
    ensures TrimRight(core + right) == core
  {
    var s := core + right;
    if right != [] {
      assert s[|s| - 1] == right[|right| - 1];
      assert s[..|s| - 1] == core + right[..|right| - 1];
      TrimRightPadded(core, right[..|right| - 1]);
    } else {
      assert s == core;
    }
  }

  // ----- round trips -----

  predicate SpellsDomain(d: string) {
    ToLower(d) == DOMAIN || ToLower(d) == DOMAIN_ALIAS
  }

  lemma SpelledDomain(d: string, gap: string)
    requires SpellsDomain(d) && AllSpaces(gap)
    ensures IsValidDomain(gap + d) && Trimmed(d) && d != "" && !Has(gap + d, '@')
  {
    ToLowerAt(d);
    PrintableIsNotSpace('@');
    forall c: char | ToLowerChar(c) == 'y' || ToLowerChar(c) == 'l' ensures !IsSpace(c) {
      PrintableIsNotSpace(c);
    }
    assert ToLower(d)[0] == 'y' && ToLower(d)[|d| - 1] == 'l';
    forall i | 0 <= i < |d| ensures d[i] != '@' {
      assert ToLower(d)[i] == ToLowerChar(d[i]);
      assert ToLower(d)[i] != '@';
    }
    TrimPadded(gap, d, "");
    assert gap + d + "" == gap + d;
  }

  /** Where the parser cuts an address. */
  lemma ParseAt(email: string, local: string, domain: string)
    requires Trim(email) == local + ['@'] + domain && local != "" && !Has(domain, '@')
    requires IsValidDomain(domain) && Decode(local).Some?
    ensures ParseAddress(email) == Ok(FitKey(Decode(local).value))
    ensures LocalPart(email) == local
  {
    var e := local + ['@'] + domain;
    LastIndexIs(local, '@', domain);
    assert e[..|local|] == local && e[|local| + 1..] == domain;
  }

  /** Every spelling of an address is read: hex in any case, either domain in any case, spaces around the
      address and after the @. */
  lemma ParseDigits(bytes: Bytes, local: string, d: string, left: string, gap: string, right: string)
    requires bytes != [] && ToLower(local) == Encode(bytes) && SpellsDomain(d)
    requires AllSpaces(left) && AllSpaces(gap) && AllSpaces(right)
    ensures ParseAddress(left + (local + ['@'] + (gap + d)) + right) == Ok(FitKey(bytes))
  {
    hide Decode, Encode, ToLower, Trim, ParseAddress, FitKey, IsSpace, AllSpaces, IsValidDomain, SpellsDomain;
    var core := local + ['@'] + (gap + d);
    StartsWithDigit(local, bytes);
    DecodeSpells(local, bytes);
    SpelledDomain(d, gap);
    assert core[0] == local[0] && core[|core| - 1] == d[|d| - 1];
    TrimPadded(left, core, right);
    ParseAt(left + core + right, local, gap + d);
  }

  lemma StartsWithDigit(local: string, bytes: Bytes)
    requires bytes != [] && ToLower(local) == Encode(bytes)
    ensures local != "" && !IsSpace(local[0])
  {
    DecodeSpells(local, bytes);
    EncodeIsLower(bytes);
    ToLowerAt(local);
    HexValueDigit(local[0]);
  }

  /** In particular every spelling of a full key's address is read back as that key. */
  lemma ParseSpelled(pk: Bytes, local: string, d: string, left: string, gap: string, right: string)
    requires |pk| == KEY_SIZE && ToLower(local) == Encode(pk) && SpellsDomain(d)
    requires AllSpaces(left) && AllSpaces(gap) && AllSpaces(right)
    ensures ParseAddress(left + (local + ['@'] + (gap + d)) + right) == Ok(pk)
  {
    ParseDigits(pk, local, d, left, gap, right);
    assert FitKey(pk) == pk;
  }

  lemma {:induction false} LowerStays(s: string)
    requires forall i :: 0 <= i < |s| ==> ToLowerChar(s[i]) == s[i]
    ensures ToLower(s) == s
  {
    if s != [] {
      LowerStays(s[1..]);
    }
  }

  lemma DomainIsLower()
    ensures SpellsDomain(DOMAIN)
  {
    LowerStays(DOMAIN);
  }

  /** Printing then parsing is the identity on keys. */
  lemma ParseCreate(pk: Bytes)
    requires |pk| == KEY_SIZE
    ensures ParseAddress(CreateAddress(pk)) == Ok(pk)
  {
    EncodeIsLower(pk);
    DomainIsLower();
    ParseSpelled(pk, Encode(pk), DOMAIN, "", "", "");
    assert "" + (Encode(pk) + ['@'] + ("" + DOMAIN)) + "" == CreateAddress(pk);
  }

  /** Parsing then printing is a normal form: it parses to the same key, and doing it again changes nothing. */
  lemma CreateParse(email: string)
    requires ParseAddress(email).Ok?
    ensures var pk := ParseAddress(email).value;
      |pk| == KEY_SIZE && ParseAddress(CreateAddress(pk)) == Ok(pk)
  {
    ParseCreate(ParseAddress(email).value);
  }

  lemma {:induction false} LastIndexFound(s: string, c: char)
    ensures var at := LastIndex(s, c);
      if at < 0 then !Has(s, c) else s[at] == c && !Has(s[at + 1..], c)
  {
    hide Has;
    HasNone(c);
    if s != [] {
      var n := |s| - 1;
      if s[n] == c {
        assert s[n + 1..] == [];
      } else {
        LastIndexFound(s[..n], c);
        var at := LastIndex(s[..n], c);
        var rest := if at < 0 then s[..n] else s[..n][at + 1..];
        HasNotSnoc(rest, s[n], c);
        assert rest + [s[n]] == if at < 0 then s else s[at + 1..];
      }
    }
  }

  lemma HasNone(c: char)
    ensures !Has([], c)
  {
  }

  lemma HasNotSnoc(s: string, last: char, c: char)
    requires !Has(s, c) && last != c
    ensures !Has(s + [last], c)
  {
  }

  /** An address as the parser takes it: digits, the last @, and one of the two domains in any case. */
  ghost predicate IsAddress(e: string, at: nat) {
    && 0 < at < |e| && e[at] == '@' && !Has(e[at + 1..], '@')
    && (ToLower(Trim(e[at + 1..])) == "yggmail" || ToLower(Trim(e[at + 1..])) == "yggmail.local")
    && Decode(e[..at]).Some?
  }

  /** Exactly these are accepted, and the key is their digits, cut off or padded with zeros to 32 bytes. */
  lemma ParseExactly(email: string)
    ensures ParseAddress(email).Ok? <==> exists at: nat :: IsAddress(Trim(email), at)
    ensures forall at: nat :: IsAddress(Trim(email), at) ==>
      && ParseAddress(email).Ok?
      && var bytes, pk := Decode(Trim(email)[..at]).value, ParseAddress(email).value;
         |pk| == 32 && forall i :: 0 <= i < 32 ==> pk[i] == if i < |bytes| then bytes[i] else 0
  {
    hide Decode, ToLower, Trim;
    var e := Trim(email);
    var last := LastIndex(e, '@');
    LastIndexFound(e, '@');
    forall at: nat | IsAddress(e, at) ensures at == last {
      LastIndexIs(e[..at], '@', e[at + 1..]);
      assert e[..at] + ['@'] + e[at + 1..] == e;
    }
    if ParseAddress(email).Ok? {
      assert IsAddress(e, last);
    }
  }

  /** A letter, its capital, or the dotted capital that lowers to a plain i. */
  predicate Spells(c: char, letter: char) {
    || c == letter
    || ('a' <= letter <= 'z' && c as int == letter as int - 32)
    || (letter == 'i' && c == '\U{130}')
  }

  lemma LetterSpelled(c: char, letter: char)
    requires letter == '.' || 'a' <= letter <= 'z'
    ensures ToLowerChar(c) == letter <==> Spells(c, letter)
  {
  }

  /** A spelling of a domain, letter by letter. */
  lemma WordSpelled(d: string, word: string)
    requires forall i :: 0 <= i < |word| ==> word[i] == '.' || 'a' <= word[i] <= 'z'
    ensures ToLower(d) == word <==> |d| == |word| && forall i :: 0 <= i < |d| ==> Spells(d[i], word[i])
  {
    hide ToLower, ToLowerChar, Spells;
    ToLowerAt(d);
    if |d| == |word| {
      forall i | 0 <= i < |d| ensures ToLower(d)[i] == word[i] <==> Spells(d[i], word[i]) {
        LetterSpelled(d[i], word[i]);
      }
    }
  }

  lemma DomainLetters(word: string)
    requires word == "yggmail" || word == "yggmail.local"
    ensures forall i :: 0 <= i < |word| ==> word[i] == '.' || 'a' <= word[i] <= 'z'
  {
  }

  lemma DomainSpelled(d: string, word: string)
    requires word == "yggmail" || word == "yggmail.local"
    ensures ToLower(d) == word <==> |d| == |word| && forall i :: 0 <= i < |d| ==> Spells(d[i], word[i])
  {
    DomainLetters(word);
    WordSpelled(d, word);
  }

  /** What a parsed key is printed as: 64 lower-case digits that decode to it. */
  lemma KeyHex(email: string)
    requires ParseAddress(email).Ok?
    ensures var pk := ParseAddress(email).value;
      |pk| == 32 && |Encode(pk)| == 64 && ToLower(Encode(pk)) == Encode(pk) && Decode(Encode(pk)) == Some(pk)
  {
    var pk := ParseAddress(email).value;
    EncodeIsLower(pk);
    DecodeSpells(Encode(pk), pk);
  }

  /** The part before the @. */
  function LocalPart(email: string): string
    requires ParseAddress(email).Ok?
  {
    Trim(email)[..LastIndex(Trim(email), '@')]
  }

  /** The parser does not check the key's length: printing the parsed key gives back the address's own local
      part, up to case, exactly when that has 64 digits. */
  lemma NormalFormKeepsLocalPart(email: string)
    requires ParseAddress(email).Ok?
    ensures Encode(ParseAddress(email).value) == ToLower(LocalPart(email)) <==> |LocalPart(email)| == 2 * KEY_SIZE
  {
    var local := LocalPart(email);
    var bytes := Decode(local).value;
    DecodeSpells(local, bytes);
    EncodeIsLower(bytes);
    EncodeIsLower(FitKey(bytes));
    ToLowerAt(local);
    if |local| == 2 * KEY_SIZE {
      assert FitKey(bytes) == bytes;
    }
  }

  /** So two different local parts can name one destination. */
  lemma ShortLocalPartsCollide(a: string, b: string)
    requires a == "00@yggmail" && b == "0000@yggmail"
    ensures ParseAddress(a) == ParseAddress(b) && ParseAddress(a).Ok?
  {
    ParseZeros("00", [0]);
    ParseZeros("0000", [0, 0]);
    assert "00" + ['@'] + DOMAIN == a && "0000" + ['@'] + DOMAIN == b;
    assert FitKey([0]) == FitKey([0, 0]);
  }

  lemma ParseZeros(local: string, bytes: Bytes)
    requires bytes != [] && |local| == 2 * |bytes|
    requires (forall i :: 0 <= i < |bytes| ==> bytes[i] == 0) && (forall i :: 0 <= i < |local| ==> local[i] == '0')
    ensures ParseAddress(local + ['@'] + DOMAIN) == Ok(FitKey(bytes))
  {
    DomainIsLower();
    LowerStays(local);
    EncodeZeros(local, bytes);
    ParseDigits(bytes, local, DOMAIN, "", "", "");
    assert "" + (local + ['@'] + ("" + DOMAIN)) + "" == local + ['@'] + DOMAIN;
  }

  lemma {:induction false} EncodeZeros(local: string, bytes: Bytes)
    requires |local| == 2 * |bytes|
    requires (forall i :: 0 <= i < |bytes| ==> bytes[i] == 0) && (forall i :: 0 <= i < |local| ==> local[i] == '0')
    ensures Encode(bytes) == local
  {
    if bytes != [] {
      EncodeZeros(local[2..], bytes[1..]);
    }
  }
}
