/** String operations of the source's runtime: trim, split, join and decimal digits. */
module Text {
  import opened Common

  predicate IsSpace(c: char) {
    var n := c as int;
    || 0x09 <= n <= 0x0D || n == 0x20 || n == 0xA0 || n == 0x1680 || 0x2000 <= n <= 0x200A
    || n == 0x2028 || n == 0x2029 || n == 0x202F || n == 0x205F || n == 0x3000 || n == 0xFEFF
  }

  function TrimStart(s: string): string {
    if s != "" && IsSpace(s[0]) then TrimStart(s[1..]) else s
  }

  function TrimEnd(s: string): string {
    if s != "" && IsSpace(s[|s| - 1]) then TrimEnd(s[..|s| - 1]) else s
  }

  function Trim(s: string): string {
    TrimEnd(TrimStart(s))
  }

  function JoinWith(parts: seq<string>, separator: string): string {
    if parts == [] then ""
    else if |parts| == 1 then parts[0]
    else JoinWith(parts[..|parts| - 1], separator) + separator + parts[|parts| - 1]
  }

  function Decimal(n: nat): string {
    if n < 10 then [('0' as int + n) as char] else Decimal(n / 10) + [('0' as int + n % 10) as char]
  }

  // ---- Splitting ---------------------------------------------------------------------

  /** `s.split(c)`, with `current` already read. */
  function SplitFrom(s: string, c: char, current: string): seq<string> {
    if s == "" then [current]
    else if s[0] == c then [current] + SplitFrom(s[1..], c, "")
    else SplitFrom(s[1..], c, current + [s[0]])
  }

  function Split(s: string, c: char): seq<string> {
    SplitFrom(s, c, "")
  }

  lemma {:induction false} SplitFromAt(a: string, c: char, b: string, current: string)
    ensures SplitFrom(a + [c] + b, c, current) == SplitFrom(a, c, current) + Split(b, c)
  {
    var s := a + [c] + b;
    if a == "" {
      assert s[0] == c && s[1..] == b;
    } else {
      assert s[0] == a[0] && s[1..] == a[1..] + [c] + b;
      if a[0] == c {
        SplitFromAt(a[1..], c, b, "");
      } else {
        SplitFromAt(a[1..], c, b, current + [a[0]]);
      }
    }
  }

  /** Splitting at a separator splits both sides. */
  lemma SplitAt(a: string, c: char, b: string)
    ensures Split(a + [c] + b, c) == Split(a, c) + Split(b, c)
  {
    SplitFromAt(a, c, b, "");
  }

  lemma {:induction false} SplitFromNone(s: string, c: char, current: string)
    requires c !in s
    ensures SplitFrom(s, c, current) == [current + s]
  {
    if s == "" {
      assert current + s == current;
    } else {
      assert current + [s[0]] + s[1..] == current + s;
      SplitFromNone(s[1..], c, current + [s[0]]);
    }
  }

  lemma SplitNone(s: string, c: char)
    requires c !in s
    ensures Split(s, c) == [s]
  {
    SplitFromNone(s, c, "");
    assert "" + s == s;
  }

  lemma {:induction false} SplitPiecesFrom(s: string, c: char, current: string)
    requires c !in current
    ensures forall k :: 0 <= k < |SplitFrom(s, c, current)| ==> c !in SplitFrom(s, c, current)[k]
    ensures forall k, x :: 0 <= k < |SplitFrom(s, c, current)| && x in SplitFrom(s, c, current)[k] ==>
              x in s || x in current
  {
    if s != "" {
      assert forall x :: x in s[1..] ==> x in s;
      if s[0] == c {
        SplitPiecesFrom(s[1..], c, "");
      } else {
        SplitPiecesFrom(s[1..], c, current + [s[0]]);
      }
    }
  }

  /** No piece contains the separator or any character not in the text. */
  lemma SplitPieces(s: string, c: char)
    ensures forall k :: 0 <= k < |Split(s, c)| ==> c !in Split(s, c)[k]
    ensures forall k, x :: 0 <= k < |Split(s, c)| && x in Split(s, c)[k] ==> x in s
  {
    SplitPiecesFrom(s, c, "");
  }

  /** The first part as it is, the others after the rest of the separator. */
  function Padded(parts: seq<string>, pad: string): seq<string> {
    seq(|parts|, i requires 0 <= i < |parts| => if i == 0 then parts[i] else pad + parts[i])
  }

  /** Splitting a join gives the parts back, each but the first padded. */
  lemma {:induction false} SplitJoined(parts: seq<string>, c: char, pad: string)
    requires parts != [] && c !in pad && forall i :: 0 <= i < |parts| ==> c !in parts[i]
    ensures Split(JoinWith(parts, [c] + pad), c) == Padded(parts, pad)
  {
    hide Split;
    var n := |parts| - 1;
    if n == 0 {
      SplitNone(parts[0], c);
    } else {
      SplitJoined(parts[..n], c, pad);
      SplitAt(JoinWith(parts[..n], [c] + pad), c, pad + parts[n]);
      SplitNone(pad + parts[n], c);
      assert JoinWith(parts, [c] + pad) == JoinWith(parts[..n], [c] + pad) + [c] + (pad + parts[n]);
      assert Padded(parts, pad) == Padded(parts[..n], pad) + [pad + parts[n]];
    }
  }

  // ---- Trimming -----------------------------------------------------------------------

  /** Empty, or with no space at either end. */
  predicate IsTrimmed(s: string) {
    s == "" || (!IsSpace(s[0]) && !IsSpace(s[|s| - 1]))
  }

  lemma TrimTrimmed(s: string)
    requires IsTrimmed(s)
    ensures Trim(s) == s
  {
  }

  lemma {:induction false} TrimStartDone(s: string)
    ensures TrimStart(s) == "" || !IsSpace(TrimStart(s)[0])
    ensures forall x :: x in TrimStart(s) ==> x in s
  {
    if s != "" && IsSpace(s[0]) {
      TrimStartDone(s[1..]);
    }
  }

  lemma {:induction false} TrimEndDone(s: string)
    ensures TrimEnd(s) == "" || !IsSpace(TrimEnd(s)[|TrimEnd(s)| - 1])
    ensures TrimEnd(s) <= s
  {
    if s != "" && IsSpace(s[|s| - 1]) {
      TrimEndDone(s[..|s| - 1]);
    }
  }

  lemma TrimIsTrimmed(s: string)
    ensures IsTrimmed(Trim(s))
    ensures forall x :: x in Trim(s) ==> x in s
  {
    TrimStartDone(s);
    TrimEndDone(TrimStart(s));
  }

  /** One space on either side is trimmed away. */
  lemma TrimOneSpace(s: string)
    requires IsTrimmed(s) && s != ""
    ensures Trim(" " + s) == s && Trim(s + " ") == s && Trim(" " + s + " ") == s
  {
    assert (" " + s)[1..] == s && (" " + s + " ")[1..] == s + " ";
    assert (s + " ")[..|s|] == s;
    TrimTrimmed(s);
    assert TrimStart(s) == s && TrimStart(s + " ") == s + " ";
    assert TrimStart(" " + s) == s && TrimStart(" " + s + " ") == s + " ";
    assert TrimEnd(s + " ") == TrimEnd(s) == s;
  }

  // ---- Joining ------------------------------------------------------------------------

  /** A join of trimmed, non-empty parts is trimmed and non-empty. */
  lemma {:induction false} JoinIsTrimmed(parts: seq<string>, separator: string)
    requires parts != [] && forall i :: 0 <= i < |parts| ==> IsTrimmed(parts[i]) && parts[i] != ""
    ensures JoinWith(parts, separator) != "" && IsTrimmed(JoinWith(parts, separator))
    ensures JoinWith(parts, separator)[0] == parts[0][0]
  {
    hide IsSpace;
    if |parts| > 1 {
      JoinIsTrimmed(parts[..|parts| - 1], separator);
    }
  }

  lemma {:induction false} JoinLacks(parts: seq<string>, separator: string, c: char)
    requires c !in separator && forall i :: 0 <= i < |parts| ==> c !in parts[i]
    ensures c !in JoinWith(parts, separator)
  {
    if |parts| > 1 {
      JoinLacks(parts[..|parts| - 1], separator, c);
    }
  }
}
