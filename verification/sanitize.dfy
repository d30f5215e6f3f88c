/**
 * The file name a download is saved under (`safe_title` in `descargar_mp3`):
 * the title keeps only letters, digits, spaces, `-` and `_`, and trailing
 * whitespace is stripped.
 */
module Sanitize {

  /** `str.isalnum` on the ASCII range: a letter or a decimal digit. */
  predicate IsAlnum(c: char) {
    ('a' <= c <= 'z') || ('A' <= c <= 'Z') || ('0' <= c <= '9')
  }

  /** The characters the filter lets through. */
  predicate Kept(c: char) {
    IsAlnum(c) || c == ' ' || c == '-' || c == '_'
  }

  /** `str.isspace` on the ASCII range: space, tab to carriage return, and the separators 0x1C to 0x1F. */
  predicate IsSpace(c: char) {
    c == ' ' || (9 <= c as int <= 13) || (28 <= c as int <= 31)
  }

  /** The filter: the kept characters of `t`, in order. */
  function Keep(t: string): (r: string)
    ensures |r| <= |t|
    ensures forall i | 0 <= i < |r| :: Kept(r[i])
    ensures forall i | 0 <= i < |t| && Kept(t[i]) :: t[i] in r
  {
    if |t| == 0 then []
    else (if Kept(t[0]) then [t[0]] else []) + Keep(t[1..])
  }

  /** `rstrip()`: `t` without its trailing whitespace. */
  function RStrip(t: string): (r: string)
    ensures |r| <= |t| && r == t[..|r|]
    ensures |r| == 0 || !IsSpace(r[|r| - 1])
    ensures forall i | |r| <= i < |t| :: IsSpace(t[i])
    decreases |t|
  {
    if |t| > 0 && IsSpace(t[|t| - 1]) then RStrip(t[..|t| - 1]) else t
  }

  /** `safe_title`: the filtered title with trailing whitespace stripped. */
  function SafeTitle(titulo: string): (r: string)
    ensures forall i | 0 <= i < |r| :: Kept(r[i])
    ensures |r| == 0 || r[|r| - 1] != ' '
  {
    var k := Keep(titulo);
    var r := RStrip(k);
    assert forall i | 0 <= i < |r| :: r[i] == k[i];
    r
  }

  /** A string of kept characters passes the filter unchanged, and only such a string does. */
  lemma {:induction false} KeepIdentity(t: string)
    ensures Keep(t) == t <==> forall i | 0 <= i < |t| :: Kept(t[i])
  {
    if |t| > 0 && forall i | 0 <= i < |t| :: Kept(t[i]) {
      assert forall i | 0 <= i < |t| - 1 :: t[1..][i] == t[i + 1];
      KeepIdentity(t[1..]);
      assert t == [t[0]] + t[1..];
    }
  }

  /** The filter acts character by character, so it distributes over concatenation. */
  lemma {:induction false} KeepConcat(a: string, b: string)
    ensures Keep(a + b) == Keep(a) + Keep(b)
    decreases |a|
  {
    if |a| > 0 {
      assert (a + b)[1..] == a[1..] + b;
      KeepConcat(a[1..], b);
    } else {
      assert a + b == b;
    }
  }

  /**
   * On a single character the filter keeps it or drops it, never replaces it;
   * with `KeepConcat` this determines `Keep` on every string.
   */
  lemma KeepChar(c: char)
    ensures Keep([c]) == if Kept(c) then [c] else []
  {
  }

  /** Stripping a string without trailing whitespace leaves it unchanged. */
  lemma RStripIdentity(t: string)
    ensures RStrip(t) == t <==> |t| == 0 || !IsSpace(t[|t| - 1])
  {
  }

  /** A safe title is already safe: sanitising twice gives the same name. */
  lemma SafeTitleIdempotent(titulo: string)
    ensures SafeTitle(SafeTitle(titulo)) == SafeTitle(titulo)
  {
    var s := SafeTitle(titulo);
    KeepIdentity(s);
    RStripIdentity(s);
  }

  /** The safe title is the filtered title up to its last non-whitespace character. */
  lemma SafeTitleStrips(titulo: string)
    ensures var k := Keep(titulo); var r := SafeTitle(titulo);
      && |r| <= |k| && r == k[..|r|]
      && forall i | |r| <= i < |k| :: k[i] == ' '
  {
  }
}
