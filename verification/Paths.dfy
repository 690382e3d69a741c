// Where a message's file lives: sanitizeMailboxName and the relative path
// `<sanitized mailbox>/<id>.eml`.

module Paths {
  import opened Text

  /** strings.ReplaceAll(s, "..", "_"): left to right, without overlap. */
  function ReplaceDots(s: string): string {
    if |s| >= 2 && s[0] == '.' && s[1] == '.' then "_" + ReplaceDots(s[2..])
    else if s == [] then []
    else [s[0]] + ReplaceDots(s[1..])
  }

  /** The replacements of sanitizeMailboxName, in order. */
  function Flatten(mailbox: string): string {
    var noSlash := ReplaceChar(ReplaceChar(mailbox, '/', '_'), '\\', '_');
    ReplaceChar(ReplaceDots(noSlash), ':', '_')
  }

  function Sanitize(mailbox: string): string {
    var s := Trim(Flatten(mailbox));
    if s == "" then "default" else s
  }

  /** strings.Contains(s, "..") */
  predicate HasDotDot(s: string) {
    exists i :: 0 <= i < |s| - 1 && DotDotAt(s, i)
  }

  predicate DotDotAt(s: string, i: nat)
    requires i < |s| - 1
  {
    s[i] == '.' && s[i + 1] == '.'
  }

  predicate Flat(s: string) {
    !Has(s, '/') && !Has(s, '\\') && !Has(s, ':') && !HasDotDot(s)
  }

  /** The names that sanitizing leaves alone. */
  predicate CleanName(s: string) {
    s != "" && Trimmed(s) && Flat(s)
  }

  /** filepath.Rel(base, filepath.Join(base, sanitized, "<id>.eml")): Join drops a "." element. */
  function RelPath(mailbox: string, id: nat): string {
    var file := Decimal(id) + ".eml";
    if Sanitize(mailbox) == "." then file else Sanitize(mailbox) + "/" + file
  }

  /** strings.HasSuffix(name, ".eml") */
  predicate IsEml(path: string) {
    |path| >= 4 && path[|path| - 4..] == ".eml"
  }

  lemma {:induction false} ReplaceDotsClears(s: string)
    ensures !HasDotDot(ReplaceDots(s))
    ensures ReplaceDots(s) != [] && ReplaceDots(s)[0] == '.' ==> s != [] && s[0] == '.' && !(|s| >= 2 && s[1] == '.')
    ensures forall c :: c != '_' && !Has(s, c) ==> !Has(ReplaceDots(s), c)
    ensures !HasDotDot(s) ==> ReplaceDots(s) == s
  {
    var r := ReplaceDots(s);
    if |s| >= 2 && s[0] == '.' && s[1] == '.' {
      ReplaceDotsClears(s[2..]);
      assert r == ['_'] + ReplaceDots(s[2..]);
      assert DotDotAt(s, 0);
      forall i | 0 <= i < |r| - 1 ensures !DotDotAt(r, i) {
        assert i > 0 ==> !DotDotAt(ReplaceDots(s[2..]), i - 1);
      }
      forall c | c != '_' && !Has(s, c) ensures !Has(r, c) {
        assert !Has(s[2..], c);
      }
    } else if s != [] {
      ReplaceDotsClears(s[1..]);
      var t := ReplaceDots(s[1..]);
      assert r == [s[0]] + t;
      forall i | 0 <= i < |r| - 1 ensures !DotDotAt(r, i) {
        assert i > 0 ==> !DotDotAt(t, i - 1);
      }
      forall c | c != '_' && !Has(s, c) ensures !Has(r, c) {
        assert s[0] != c;
        assert !Has(s[1..], c);
      }
      if !HasDotDot(s) {
        assert !HasDotDot(s[1..]) by {
          forall i | 0 <= i < |s[1..]| - 1 ensures !DotDotAt(s[1..], i) {
            assert !DotDotAt(s, i + 1);
          }
        }
      }
    }
  }

  lemma FlattenClears(mailbox: string)
    ensures Flat(Flatten(mailbox))
    ensures Flat(mailbox) ==> Flatten(mailbox) == mailbox
  {
    var noSlash := ReplaceChar(ReplaceChar(mailbox, '/', '_'), '\\', '_');
    ReplaceCharAt(mailbox, '/', '_');
    ReplaceCharAt(ReplaceChar(mailbox, '/', '_'), '\\', '_');
    ReplaceDotsClears(noSlash);
    var noDots := ReplaceDots(noSlash);
    ReplaceCharAt(noDots, ':', '_');
    assert !Has(noSlash, '/') && !Has(noSlash, '\\');
    var flat := Flatten(mailbox);
    forall i | 0 <= i < |flat| - 1 ensures !DotDotAt(flat, i) {
      assert !DotDotAt(noDots, i);
    }
    if Flat(mailbox) {
      assert noSlash == mailbox;
      ReplaceCharAt(mailbox, ':', '_');
      assert ReplaceChar(mailbox, ':', '_') == mailbox;
    }
  }

  lemma SliceStaysFlat(s: string, a: nat, b: nat)
    requires a <= b <= |s| && Flat(s)
    ensures Flat(s[a..b])
  {
    forall i | 0 <= i < b - a - 1 ensures !DotDotAt(s[a..b], i) {
      assert !DotDotAt(s, a + i);
    }
  }

  lemma DefaultIsClean()
    ensures CleanName("default")
  {
  }

  lemma TrimStaysFlat(s: string)
    requires Flat(s)
    ensures Flat(Trim(s)) && Trimmed(Trim(s))
    ensures Trimmed(s) ==> Trim(s) == s
  {
    var l := TrimLeft(s);
    TrimLeftIsSuffix(s);
    TrimRightIsPrefix(l);
    assert Flat(l) by {
      SliceStaysFlat(s, |s| - |l|, |s|);
      assert s[|s| - |l|..|s|] == l;
    }
    assert Flat(Trim(s)) by {
      SliceStaysFlat(l, 0, |Trim(s)|);
    }
    TrimIsTrimmed(s);
  }

  /** A sanitized name is clean, and sanitizing changes exactly the names that are not:
      in particular it is idempotent. */
  lemma SanitizeNormalises(mailbox: string)
    ensures CleanName(Sanitize(mailbox))
    ensures Sanitize(mailbox) == mailbox <==> CleanName(mailbox)
  {
    FlattenClears(mailbox);
    TrimStaysFlat(Flatten(mailbox));
    DefaultIsClean();
  }

  /** What becomes of a name that is not clean: each of the three separators becomes one underscore. */
  lemma SanitizePointwise(mailbox: string)
    requires mailbox != "" && Trimmed(mailbox) && !HasDotDot(mailbox)
    ensures |Sanitize(mailbox)| == |mailbox|
    ensures forall i :: 0 <= i < |mailbox| ==>
      Sanitize(mailbox)[i] == if mailbox[i] in {'/', '\\', ':'} then '_' else mailbox[i]
  {
    var noSlash := ReplaceChar(ReplaceChar(mailbox, '/', '_'), '\\', '_');
    ReplaceCharAt(mailbox, '/', '_');
    ReplaceCharAt(ReplaceChar(mailbox, '/', '_'), '\\', '_');
    forall i | 0 <= i < |noSlash| - 1 ensures !DotDotAt(noSlash, i) {
      assert !DotDotAt(mailbox, i);
    }
    ReplaceDotsClears(noSlash);
    ReplaceCharAt(noSlash, ':', '_');
    var flat := Flatten(mailbox);
    assert flat == ReplaceChar(noSlash, ':', '_');
    assert !IsSpace('_');
    TrimIsTrimmed(flat);
  }

  /** The first pair of dots becomes one underscore, and so on behind it. */
  lemma {:induction false} DotsBecomeOne(before: string, behind: string)
    requires !HasDotDot(before + ".")
    ensures ReplaceDots(before + ".." + behind) == before + "_" + ReplaceDots(behind)
  {
    var s := before + ".." + behind;
    if before == "" {
      assert s == ".." + behind && s[2..] == behind;
    } else {
      assert !DotDotAt(before + ".", 0);
      forall i | 0 <= i < |before[1..] + "."| - 1 ensures !DotDotAt(before[1..] + ".", i) {
        assert !DotDotAt(before + ".", i + 1);
      }
      DotsBecomeOne(before[1..], behind);
      assert s[1..] == before[1..] + ".." + behind;
      assert s[1] == (before + ".")[1];
    }
  }

  lemma NoNameIsDefault()
    ensures Sanitize("") == "default"
  {
  }

  lemma EmlIs(path: string)
    ensures IsEml(path) <==> exists p: string :: path == p + ".eml"
  {
    if IsEml(path) {
      assert path == path[..|path| - 4] + ".eml";
    }
  }

  predicate IsLetter(c: char) {
    'A' <= c <= 'Z' || 'a' <= c <= 'z'
  }

  lemma LettersAreClean(s: string)
    requires s != "" && forall i :: 0 <= i < |s| ==> IsLetter(s[i])
    ensures CleanName(s)
  {
    forall c | IsLetter(c) ensures !IsSpace(c) {
      assert forall i :: 0 <= i < |SPACES| ==> SPACES[i] as int < 0x21 || SPACES[i] as int > 0x7E;
    }
  }

  /** The path of a message in a mailbox named with letters. */
  lemma PlainPath(mailbox: string, id: nat)
    requires mailbox != "" && forall i :: 0 <= i < |mailbox| ==> IsLetter(mailbox[i])
    ensures RelPath(mailbox, id) == mailbox + "/" + Decimal(id) + ".eml"
  {
    LettersAreClean(mailbox);
    SanitizeNormalises(mailbox);
  }

  lemma SlashPosition(a: string, x: string)
    requires !Has(a, '/')
    ensures var s := a + "/" + x; s[|a|] == '/' && (forall i :: 0 <= i < |a| ==> s[i] != '/')
    ensures var s := a + "/" + x; a == s[..|a|] && x == s[|a| + 1..]
  {
  }

  lemma PrefixUpToSlash(a: string, x: string, b: string, y: string)
    requires !Has(a, '/') && !Has(b, '/')
    requires a + "/" + x == b + "/" + y
    ensures a == b && x == y
  {
    SlashPosition(a, x);
    SlashPosition(b, y);
    assert |a| == |b|;
  }

  lemma FileNameInjective(i: nat, j: nat)
    requires Decimal(i) + ".eml" == Decimal(j) + ".eml"
    ensures i == j
  {
    var s, t := Decimal(i) + ".eml", Decimal(j) + ".eml";
    assert Decimal(i) == s[..|s| - 4] && Decimal(j) == t[..|t| - 4];
    DecimalInjective(i, j);
  }

  lemma FileNameHasNoSlash(i: nat)
    ensures !Has(Decimal(i) + ".eml", '/')
  {
    DecimalDigits(i);
  }

  lemma RelPathHasSlash(m: string, i: nat)
    ensures Has(RelPath(m, i), '/') <==> Sanitize(m) != "."
  {
    FileNameHasNoSlash(i);
    SanitizeNormalises(m);
    SlashPosition(Sanitize(m), Decimal(i) + ".eml");
  }

  /** Two messages are given the same file exactly when their mailboxes sanitize alike and their
      ids agree: the id and the directory can both be read back from the path. */
  lemma RelPathInjective(m: string, i: nat, n: string, j: nat)
    ensures RelPath(m, i) == RelPath(n, j) <==> Sanitize(m) == Sanitize(n) && i == j
  {
    if RelPath(m, i) == RelPath(n, j) {
      RelPathHasSlash(m, i);
      RelPathHasSlash(n, j);
      if Sanitize(m) != "." {
        SanitizeNormalises(m);
        SanitizeNormalises(n);
        PrefixUpToSlash(Sanitize(m), Decimal(i) + ".eml", Sanitize(n), Decimal(j) + ".eml");
      }
      FileNameInjective(i, j);
    }
  }

  lemma JoinHasNoDotDot(a: string, tail: string)
    requires !HasDotDot(a) && !HasDotDot(tail)
    ensures !HasDotDot(a + "/" + tail)
  {
    var p := a + "/" + tail;
    forall k | 0 <= k < |p| - 1 ensures !DotDotAt(p, k) {
      if k + 1 < |a| {
        assert !DotDotAt(a, k);
      } else if k > |a| {
        assert !DotDotAt(tail, k - |a| - 1);
      }
    }
  }

  lemma FileNameAccepted(i: nat)
    ensures !HasDotDot(Decimal(i) + ".eml")
    ensures IsEml(Decimal(i) + ".eml")
  {
    var d := Decimal(i);
    DecimalDigits(i);
    var tail := d + ".eml";
    forall k | 0 <= k < |tail| - 1 ensures !DotDotAt(tail, k) {
      if k < |d| {
        assert tail[k] == d[k];
      } else {
        assert tail[k + 1] == ".eml"[k + 1 - |d|];
      }
    }
  }

  /** Every path the store hands out passes its own traversal check and is seen by the walks. */
  lemma RelPathAccepted(m: string, i: nat)
    ensures !HasDotDot(RelPath(m, i))
    ensures IsEml(RelPath(m, i))
  {
    var a, tail := Sanitize(m), Decimal(i) + ".eml";
    SanitizeNormalises(m);
    FileNameAccepted(i);
    JoinHasNoDotDot(a, tail);
    var p := a + "/" + tail;
    assert p[|p| - 4..] == tail[|tail| - 4..];
  }

  /** Sanitizing is not injective: nested mailboxes share a directory with flat ones. */
  lemma SanitizeCollides()
    ensures Sanitize("A/B") == Sanitize("A_B") && "A/B" != "A_B"
  {
    var s := ReplaceChar("A/B", '/', '_');
    assert s == "A_B";
    assert !HasDotDot("A_B");
    assert CleanName("A_B");
    SanitizeNormalises("A_B");
    assert ReplaceChar("A_B", '/', '_') == "A_B";
  }
}
