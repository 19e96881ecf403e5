/** Finding and replacing byte strings. */
module ByteSearch {
  import opened Common
  import opened Utf8

  predicate OccursAt(text: seq<byte>, needle: seq<byte>, i: nat) {
    i + |needle| <= |text| && text[i..i + |needle|] == needle
  }

  ghost predicate Contains(text: seq<byte>, needle: seq<byte>) {
    exists i: nat :: OccursAt(text, needle, i)
  }

  predicate EndsWith(text: seq<byte>, needle: seq<byte>) {
    |needle| <= |text| && OccursAt(text, needle, |text| - |needle|)
  }

  /** The first occurrence of `needle` at or behind position `from`. */
  function FirstFrom(text: seq<byte>, needle: seq<byte>, from: nat): (at: Option<nat>)
    ensures at.Some? ==> at.value >= from && OccursAt(text, needle, at.value)
    ensures at.Some? ==> forall i | from <= i < at.value :: !OccursAt(text, needle, i)
    ensures at.None? ==> forall i | from <= i :: !OccursAt(text, needle, i)
    decreases |text| - from
  {
    if from + |needle| > |text| then None
    else if OccursAt(text, needle, from) then Some(from)
    else FirstFrom(text, needle, from + 1)
  }

  // ---------------------------------------------------------------------
  // Replacing
  // ---------------------------------------------------------------------

  /** The text between the occurrences of `needle`, searched from the left without overlap. */
  function Pieces(text: seq<byte>, needle: seq<byte>): (pieces: seq<seq<byte>>)
    requires needle != []
    ensures pieces != []
    decreases |text|
  {
    match FirstFrom(text, needle, 0)
    case None => [text]
    case Some(i) => [text[..i]] + Pieces(text[i + |needle|..], needle)
  }

  function Join(pieces: seq<seq<byte>>, separator: seq<byte>): seq<byte>
    requires pieces != []
  {
    if |pieces| == 1 then pieces[0] else pieces[0] + separator + Join(pieces[1..], separator)
  }

  /** A piece that ends with the first occurrence of `needle`. */
  ghost predicate EndsFirst(piece: seq<byte>, needle: seq<byte>) {
    forall i: nat | OccursAt(piece + needle, needle, i) :: i == |piece|
  }

  /** `pieces` is a text cut at the leftmost occurrences of `needle`. */
  ghost predicate CutLeftmost(pieces: seq<seq<byte>>, needle: seq<byte>) {
    && pieces != []
    && (forall k | 0 <= k < |pieces| - 1 :: EndsFirst(pieces[k], needle))
    && !Contains(pieces[|pieces| - 1], needle)
  }

  lemma OccursInFront(text: seq<byte>, more: seq<byte>, needle: seq<byte>, i: nat)
    requires i + |needle| <= |text|
    ensures OccursAt(text + more, needle, i) <==> OccursAt(text, needle, i)
  {
    assert (text + more)[i..i + |needle|] == text[i..i + |needle|];
  }

  /** The pieces put together with the needle are the text, cut at the leftmost occurrences. */
  lemma {:induction false} PiecesCut(text: seq<byte>, needle: seq<byte>)
    requires needle != []
    ensures Join(Pieces(text, needle), needle) == text && CutLeftmost(Pieces(text, needle), needle)
    decreases |text|
  {
    match FirstFrom(text, needle, 0)
    case None =>
    case Some(at) =>
      var rest := text[at + |needle|..];
      PiecesCut(rest, needle);
      assert text == text[..at] + needle + rest;
      forall i: nat | OccursAt(text[..at] + needle, needle, i)
        ensures i == at
      {
        OccursInFront(text[..at] + needle, rest, needle, i);
      }
      assert EndsFirst(text[..at], needle);
  }

  /** A text can be cut in only one such way, so replacing is determined by which occurrences are the leftmost. */
  lemma {:induction false} CutUnique(pieces: seq<seq<byte>>, needle: seq<byte>)
    requires needle != [] && CutLeftmost(pieces, needle)
    ensures Pieces(Join(pieces, needle), needle) == pieces
    decreases |pieces|
  {
    var text := Join(pieces, needle);
    if |pieces| > 1 {
      var first, rest := pieces[0], Join(pieces[1..], needle);
      assert EndsFirst(first, needle);
      FirstCut(first, needle, rest);
      CutUnique(pieces[1..], needle);
      assert text[..|first|] == first && text[|first| + |needle|..] == rest;
    } else {
      assert FirstFrom(text, needle, 0).None?;
    }
  }

  lemma FirstCut(first: seq<byte>, needle: seq<byte>, rest: seq<byte>)
    requires EndsFirst(first, needle)
    ensures FirstFrom(first + needle + rest, needle, 0) == Some(|first|)
  {
    var text := first + needle + rest;
    assert OccursAt(text, needle, |first|) by {
      assert text[|first|..|first| + |needle|] == needle;
    }
    forall i: nat | i < |first|
      ensures !OccursAt(text, needle, i)
    {
      OccursInFront(first + needle, rest, needle, i);
    }
  }

  // ---------------------------------------------------------------------
  // The empty needle
  // ---------------------------------------------------------------------

  /** A text cut into characters, and single bytes where it is not UTF-8. */
  function Runes(text: seq<byte>): seq<seq<byte>> {
    if text == [] then [] else [text[..ItemWidth(text)]] + Runes(text[ItemWidth(text)..])
  }

  /** The empty string occurs before and behind every rune. */
  function AllPieces(text: seq<byte>, needle: seq<byte>): (pieces: seq<seq<byte>>)
    ensures pieces != []
  {
    if needle == [] then [[]] + Runes(text) + [[]] else Pieces(text, needle)
  }

  /** How wide the first rune is, going by the first byte and then by validating that many bytes. */
  function NextRuneWidth(bytes: seq<byte>): nat {
    if bytes == [] then 0
    else
      var w := Width(bytes[0]);
      if w == 0 then 1
      else if |bytes| >= w && ValidUpTo(bytes[..w]) == w then w
      else 1
  }

  lemma RuneIsItem(bytes: seq<byte>)
    requires bytes != []
    ensures NextRuneWidth(bytes) == ItemWidth(bytes)
  {
    var w := Width(bytes[0]);
    if 0 < w <= |bytes| {
      var front := bytes[..w];
      assert front[w..] == [];
      assert StartsWithCharacter(front) <==> StartsWithCharacter(bytes);
    }
  }

  lemma {:induction false} JoinRunes(before: seq<byte>, text: seq<byte>)
    ensures Join([before] + Runes(text) + [[]], []) == before + text
    decreases |text|
  {
    hide ItemWidth;
    var pieces := [before] + Runes(text) + [[]];
    if text == [] {
      assert pieces == [before, []];
    } else {
      var w := ItemWidth(text);
      JoinRunes(text[..w], text[w..]);
      assert pieces[1..] == [text[..w]] + Runes(text[w..]) + [[]];
      assert text == text[..w] + text[w..];
    }
  }

  /** Searching from a position is searching the rest. */
  lemma FirstInRest(text: seq<byte>, needle: seq<byte>, from: nat)
    requires from <= |text|
    ensures var rest := FirstFrom(text[from..], needle, 0);
            FirstFrom(text, needle, from) == if rest.Some? then Some(from + rest.value) else None
  {
    hide FirstFrom;
    forall i: nat | i + from + |needle| <= |text|
      ensures OccursAt(text[from..], needle, i) <==> OccursAt(text, needle, from + i)
    {
      assert text[from..][i..i + |needle|] == text[from + i..from + i + |needle|];
    }
    var all, rest := FirstFrom(text, needle, from), FirstFrom(text[from..], needle, 0);
    if all.Some? {
      assert OccursAt(text[from..], needle, all.value - from);
    }
    if rest.Some? {
      assert OccursAt(text, needle, from + rest.value);
    }
  }

  lemma JoinFirst(text: seq<byte>, needle: seq<byte>, replacement: seq<byte>)
    requires needle != [] && FirstFrom(text, needle, 0).Some?
    ensures var i := FirstFrom(text, needle, 0).value;
            Join(Pieces(text, needle), replacement) ==
            text[..i] + replacement + Join(Pieces(text[i + |needle|..], needle), replacement)
  {
    var i := FirstFrom(text, needle, 0).value;
    var rest := Pieces(text[i + |needle|..], needle);
    assert Pieces(text, needle) == [text[..i]] + rest;
    assert ([text[..i]] + rest)[1..] == rest;
  }

  /** What is still to be written once the text has been searched up to `offset`. */
  ghost function Remaining(text: seq<byte>, needle: seq<byte>, replacement: seq<byte>, offset: nat): seq<byte>
    requires needle != [] && offset <= |text|
  {
    Join(Pieces(text[offset..], needle), replacement)
  }

  lemma ReplaceNext(text: seq<byte>, needle: seq<byte>, replacement: seq<byte>, offset: nat)
    requires needle != [] && offset <= |text|
    ensures var next := FirstFrom(text, needle, offset);
            Remaining(text, needle, replacement, offset) ==
            if next.None? then text[offset..]
            else text[offset..next.value] + replacement
                 + Remaining(text, needle, replacement, next.value + |needle|)
  {
    FirstInRest(text, needle, offset);
    var next, rest := FirstFrom(text, needle, offset), text[offset..];
    if next.Some? {
      hide Join;
      JoinFirst(rest, needle, replacement);
      assert rest[next.value - offset + |needle|..] == text[next.value + |needle|..];
      assert rest[..next.value - offset] == text[offset..next.value];
    }
  }

  /** What is still to be written once the text's runes have been passed up to `offset`. */
  ghost function RemainingRunes(text: seq<byte>, replacement: seq<byte>, offset: nat): seq<byte>
    requires offset <= |text|
    decreases |text| - offset
  {
    if offset == |text| then []
    else
      var w := ItemWidth(text[offset..]);
      text[offset..offset + w] + replacement + RemainingRunes(text, replacement, offset + w)
  }

  lemma {:induction false} JoinRemaining(text: seq<byte>, replacement: seq<byte>, before: seq<byte>, offset: nat)
    requires offset <= |text|
    ensures Join([before] + Runes(text[offset..]) + [[]], replacement)
         == before + replacement + RemainingRunes(text, replacement, offset)
    decreases |text| - offset
  {
    var rest := text[offset..];
    var pieces := [before] + Runes(rest) + [[]];
    if offset == |text| {
      assert pieces == [before, []];
    } else {
      var w := ItemWidth(rest);
      assert rest[..w] == text[offset..offset + w] && rest[w..] == text[offset + w..];
      assert pieces[1..] == [rest[..w]] + Runes(text[offset + w..]) + [[]];
      JoinRemaining(text, replacement, rest[..w], offset + w);
    }
  }

  /** Puts `replacement` around every rune. */
  method SurroundRunes(text: seq<byte>, replacement: seq<byte>) returns (output: seq<byte>)
    ensures output == replacement + RemainingRunes(text, replacement, 0)
  {
    hide StartsWithCharacter;
    output := replacement;
    var offset: nat := 0;
    while offset < |text|
      invariant offset <= |text|
      invariant replacement + RemainingRunes(text, replacement, 0) == output + RemainingRunes(text, replacement, offset)
      decreases |text| - offset
    {
      RuneIsItem(text[offset..]);
      var width := NextRuneWidth(text[offset..]);
      ghost var rest := RemainingRunes(text, replacement, offset + width);
      assert output + (text[offset..offset + width] + replacement + rest)
          == output + text[offset..offset + width] + replacement + rest;
      output := output + text[offset..offset + width] + replacement;
      offset := offset + width;
    }
  }

  /** Searches for the leftmost occurrence, copies what stands before it, and goes on behind it. */
  method ReplaceOccurrences(text: seq<byte>, needle: seq<byte>, replacement: seq<byte>) returns (output: seq<byte>)
    requires needle != []
    ensures output == Remaining(text, needle, replacement, 0)
  {
    hide Remaining, FirstFrom;
    output := [];
    var offset: nat := 0;
    var next := FirstFrom(text, needle, 0);
    while next.Some?
      invariant offset <= |text| && next == FirstFrom(text, needle, offset)
      invariant Remaining(text, needle, replacement, 0) == output + Remaining(text, needle, replacement, offset)
      decreases |text| - offset
    {
      ReplaceNext(text, needle, replacement, offset);
      var start := next.value;
      ghost var rest := Remaining(text, needle, replacement, start + |needle|);
      assert output + (text[offset..start] + replacement + rest) == output + text[offset..start] + replacement + rest;
      output := output + text[offset..start] + replacement;
      offset := start + |needle|;
      next := FirstFrom(text, needle, offset);
    }
    ReplaceNext(text, needle, replacement, offset);
    output := output + text[offset..];
  }

  /** Replaces the leftmost occurrences of `needle`. An empty needle occurs around every rune. */
  method ReplaceAllBytes(text: seq<byte>, needle: seq<byte>, replacement: seq<byte>) returns (output: seq<byte>)
    ensures output == Join(AllPieces(text, needle), replacement)
  {
    if needle != [] {
      output := ReplaceOccurrences(text, needle, replacement);
      assert text[0..] == text;
    } else if replacement == [] {
      JoinRunes([], text);
      output := text;
    } else {
      output := SurroundRunes(text, replacement);
      JoinRemaining(text, replacement, [], 0);
      assert text[0..] == text;
    }
  }
}

/** Removing detected secrets from what a finding retains. */
module SecretRemoval {
  import opened ByteOrder
  import opened ByteSearch
  import opened Common
  import Sorting

  // ---------------------------------------------------------------------
  // Subsequences
  // ---------------------------------------------------------------------

  /** `a` is what is left of `b` when some of its bytes are taken out. */
  predicate Subsequence(a: seq<byte>, b: seq<byte>) {
    a == [] || (b != [] && ((a[0] == b[0] && Subsequence(a[1..], b[1..])) || Subsequence(a, b[1..])))
  }

  lemma {:induction false} SubsequenceSelf(a: seq<byte>)
    ensures Subsequence(a, a)
  {
    if a != [] {
      SubsequenceSelf(a[1..]);
    }
  }

  lemma {:induction false} SubsequenceShorter(a: seq<byte>, b: seq<byte>)
    requires Subsequence(a, b)
    ensures |a| <= |b|
  {
    if a != [] {
      if a[0] == b[0] && Subsequence(a[1..], b[1..]) {
        SubsequenceShorter(a[1..], b[1..]);
      } else {
        SubsequenceShorter(a, b[1..]);
      }
    }
  }

  lemma {:induction false} SubsequenceTransitive(a: seq<byte>, b: seq<byte>, c: seq<byte>)
    requires Subsequence(a, b) && Subsequence(b, c)
    ensures Subsequence(a, c)
    decreases |c|
  {
    if a != [] {
      if b[0] == c[0] && Subsequence(b[1..], c[1..]) {
        if a[0] == b[0] && Subsequence(a[1..], b[1..]) {
          SubsequenceTransitive(a[1..], b[1..], c[1..]);
        } else {
          SubsequenceTransitive(a, b[1..], c[1..]);
        }
      } else {
        SubsequenceTransitive(a, b, c[1..]);
      }
    }
  }

  lemma {:induction false} SubsequenceBoth(a: seq<byte>, b: seq<byte>, c: seq<byte>, d: seq<byte>)
    requires Subsequence(a, b) && Subsequence(c, d)
    ensures Subsequence(a + c, b + d)
    decreases |b|
  {
    if b == [] {
      assert a + c == c && b + d == d;
    } else {
      assert (b + d)[1..] == b[1..] + d;
      if a != [] && a[0] == b[0] && Subsequence(a[1..], b[1..]) {
        assert (a + c)[1..] == a[1..] + c;
        SubsequenceBoth(a[1..], b[1..], c, d);
      } else {
        SubsequenceBoth(a, b[1..], c, d);
      }
    }
  }

  lemma SubsequencePrefix(a: seq<byte>, n: nat)
    requires n <= |a|
    ensures Subsequence(a[..n], a)
  {
    SubsequenceSelf(a[..n]);
    SubsequenceBoth(a[..n], a[..n], [], a[n..]);
    assert a[..n] + [] == a[..n] && a[..n] + a[n..] == a;
  }

  // ---------------------------------------------------------------------
  // One pass of deletion
  // ---------------------------------------------------------------------

  /** The text without the leftmost occurrences of the secret. */
  function Deleted(text: seq<byte>, secret: seq<byte>): seq<byte> {
    Join(AllPieces(text, secret), [])
  }

  lemma {:induction false} JoinSubsequence(pieces: seq<seq<byte>>, separator: seq<byte>)
    requires pieces != []
    ensures Subsequence(Join(pieces, []), Join(pieces, separator))
    ensures separator != [] && |pieces| > 1 ==> |Join(pieces, [])| < |Join(pieces, separator)|
  {
    if |pieces| == 1 {
      SubsequenceSelf(pieces[0]);
    } else {
      JoinSubsequence(pieces[1..], separator);
      SubsequenceSelf(pieces[0]);
      SubsequenceBoth(pieces[0], pieces[0], [], separator);
      SubsequenceBoth(pieces[0] + [], pieces[0] + separator, Join(pieces[1..], []), Join(pieces[1..], separator));
      SubsequenceShorter(Join(pieces[1..], []), Join(pieces[1..], separator));
    }
  }

  /** Deleting gives a subsequence, and the same text exactly when the secret does not occur. */
  lemma DeletedIs(text: seq<byte>, secret: seq<byte>)
    ensures Subsequence(Deleted(text, secret), text)
    ensures secret == [] ==> Deleted(text, secret) == text
    ensures secret != [] ==> (|Deleted(text, secret)| == |text| <==> !Contains(text, secret))
    ensures secret != [] && !Contains(text, secret) ==> Deleted(text, secret) == text
  {
    if secret == [] {
      JoinRunes([], text);
      assert [] + text == text;
      SubsequenceSelf(text);
    } else {
      PiecesCut(text, secret);
      JoinSubsequence(Pieces(text, secret), secret);
    }
  }

  /** The text after deleting the first `k` secrets, one after the other. */
  function DeletedAll(text: seq<byte>, secrets: seq<seq<byte>>, k: nat): seq<byte>
    requires k <= |secrets|
  {
    if k == 0 then text else Deleted(DeletedAll(text, secrets, k - 1), secrets[k - 1])
  }

  // ---------------------------------------------------------------------
  // Clean text
  // ---------------------------------------------------------------------

  /** No secret, except perhaps the empty one, occurs in the text. */
  ghost predicate Clean(text: seq<byte>, secrets: seq<seq<byte>>) {
    forall i | 0 <= i < |secrets| :: secrets[i] != [] ==> !Contains(text, secrets[i])
  }

  predicate HasSecret(text: seq<byte>, secrets: seq<seq<byte>>)
    ensures HasSecret(text, secrets) <==> !Clean(text, secrets)
  {
    secrets != [] && ((secrets[0] != [] && FirstFrom(text, secrets[0], 0).Some?) || HasSecret(text, secrets[1..]))
  }

  lemma {:induction false} DeletedAllIs(text: seq<byte>, secrets: seq<seq<byte>>, k: nat)
    requires k <= |secrets|
    ensures Subsequence(DeletedAll(text, secrets, k), text)
    ensures |DeletedAll(text, secrets, k)| == |text| ==>
              DeletedAll(text, secrets, k) == text && Clean(text, secrets[..k])
    ensures Clean(text, secrets[..k]) ==> DeletedAll(text, secrets, k) == text
  {
    hide Subsequence, Deleted, Contains;
    if k == 0 {
      SubsequenceSelf(text);
    } else {
      var before, after := DeletedAll(text, secrets, k - 1), DeletedAll(text, secrets, k);
      DeletedAllIs(text, secrets, k - 1);
      DeletedIs(before, secrets[k - 1]);
      SubsequenceTransitive(after, before, text);
      SubsequenceShorter(after, before);
      SubsequenceShorter(before, text);
      assert secrets[..k] == secrets[..k - 1] + [secrets[k - 1]];
      assert forall i | 0 <= i < k - 1 :: secrets[..k][i] == secrets[..k - 1][i];
    }
  }

  // ---------------------------------------------------------------------
  // Pushing bytes and cutting off secrets
  // ---------------------------------------------------------------------

  /** The first secret that the text ends with. */
  function FirstSuffix(text: seq<byte>, secrets: seq<seq<byte>>, from: nat): (at: Option<nat>)
    ensures at.Some? ==> at.value < |secrets| && secrets[at.value] != [] && EndsWith(text, secrets[at.value])
    ensures at.Some? ==> forall i | from <= i < at.value :: secrets[i] == [] || !EndsWith(text, secrets[i])
    ensures at.None? ==> forall i | from <= i < |secrets| :: secrets[i] == [] || !EndsWith(text, secrets[i])
    decreases |secrets| - from
  {
    if from >= |secrets| then None
    else if secrets[from] != [] && EndsWith(text, secrets[from]) then Some(from)
    else FirstSuffix(text, secrets, from + 1)
  }

  /** The output after one more byte: a secret that the byte completes is cut off. */
  function Pushed(output: seq<byte>, b: byte, secrets: seq<seq<byte>>): seq<byte> {
    var longer := output + [b];
    var suffix := FirstSuffix(longer, secrets, 0);
    if suffix.Some? then longer[..|longer| - |secrets[suffix.value]|] else longer
  }

  function Reduced(text: seq<byte>, secrets: seq<seq<byte>>, k: nat): seq<byte>
    requires k <= |text|
  {
    if k == 0 then [] else Pushed(Reduced(text, secrets, k - 1), text[k - 1], secrets)
  }

  lemma CleanPrefix(text: seq<byte>, secrets: seq<seq<byte>>, n: nat)
    requires Clean(text, secrets) && n <= |text|
    ensures Clean(text[..n], secrets)
  {
    forall i, j: nat | 0 <= i < |secrets| && secrets[i] != []
      ensures !OccursAt(text[..n], secrets[i], j)
    {
      if j + |secrets[i]| <= n {
        assert text[..n][j..j + |secrets[i]|] == text[j..j + |secrets[i]|];
        assert !Contains(text, secrets[i]);
        assert !OccursAt(text, secrets[i], j);
      }
    }
  }

  /** A clean text with one byte more can only hold a secret at its end. */
  lemma PushedClean(output: seq<byte>, b: byte, secrets: seq<seq<byte>>)
    requires Clean(output, secrets)
    ensures Clean(Pushed(output, b, secrets), secrets)
    ensures Subsequence(Pushed(output, b, secrets), output + [b])
  {
    var longer := output + [b];
    var suffix := FirstSuffix(longer, secrets, 0);
    if suffix.Some? {
      var n := |longer| - |secrets[suffix.value]|;
      assert longer[..n] == output[..n];
      CleanPrefix(output, secrets, n);
      SubsequencePrefix(longer, n);
    } else {
      forall i, j: nat | 0 <= i < |secrets| && secrets[i] != []
        ensures !OccursAt(longer, secrets[i], j)
      {
        assert !EndsWith(longer, secrets[i]);
        if j + |secrets[i]| <= |output| {
          OccursInFront(output, [b], secrets[i], j);
          assert !Contains(output, secrets[i]);
        }
      }
      SubsequenceSelf(longer);
    }
  }

  lemma {:induction false} ReducedIs(text: seq<byte>, secrets: seq<seq<byte>>, k: nat)
    requires k <= |text|
    ensures Clean(Reduced(text, secrets, k), secrets) && Subsequence(Reduced(text, secrets, k), text[..k])
  {
    hide Subsequence, OccursAt;
    if k == 0 {
      NothingContained();
      SubsequenceSelf([]);
    } else {
      var before := Reduced(text, secrets, k - 1);
      ReducedIs(text, secrets, k - 1);
      PushedClean(before, text[k - 1], secrets);
      SubsequenceSelf([text[k - 1]]);
      SubsequenceBoth(before, text[..k - 1], [text[k - 1]], [text[k - 1]]);
      assert text[..k] == text[..k - 1] + [text[k - 1]];
      SubsequenceTransitive(Reduced(text, secrets, k), before + [text[k - 1]], text[..k]);
    }
  }

  lemma NothingContained()
    ensures forall secret | secret != [] :: !Contains([], secret)
  {
  }

  // ---------------------------------------------------------------------
  // Removing secrets from a value
  // ---------------------------------------------------------------------

  /** What removal leaves: the passes of deletion where they are enough, and otherwise what pushing leaves of those. */
  function Removed(text: seq<byte>, secrets: seq<seq<byte>>): seq<byte> {
    var passed := DeletedAll(text, secrets, |secrets|);
    if HasSecret(passed, secrets) then Reduced(passed, secrets, |passed|) else passed
  }

  /** Nothing secret is left, nothing is added or reordered, and clean text is left alone. */
  lemma RemovedIsClean(text: seq<byte>, secrets: seq<seq<byte>>)
    ensures Clean(Removed(text, secrets), secrets)
    ensures Subsequence(Removed(text, secrets), text)
    ensures Clean(text, secrets) ==> Removed(text, secrets) == text
    ensures Removed(Removed(text, secrets), secrets) == Removed(text, secrets)
  {
    hide Subsequence, OccursAt, Deleted, Contains;
    RemovedIs(text, secrets);
    RemovedIs(Removed(text, secrets), secrets);
  }

  lemma RemovedIs(text: seq<byte>, secrets: seq<seq<byte>>)
    ensures Clean(Removed(text, secrets), secrets)
    ensures Subsequence(Removed(text, secrets), text)
    ensures Clean(text, secrets) ==> Removed(text, secrets) == text
  {
    hide Subsequence, OccursAt, Deleted, Contains, DeletedAll, Reduced;
    var passed := DeletedAll(text, secrets, |secrets|);
    DeletedAllIs(text, secrets, |secrets|);
    assert secrets[..|secrets|] == secrets;
    ReducedIs(passed, secrets, |passed|);
    assert passed[..|passed|] == passed;
    SubsequenceTransitive(Reduced(passed, secrets, |passed|), passed, text);
  }

  /** Deletes the secrets one after the other, and pushes what is left byte by byte when a secret remains. */
  method RemoveDetectedSecrets(original: seq<byte>, secrets: seq<seq<byte>>) returns (value: seq<byte>)
    ensures value == Removed(original, secrets)
  {
    hide AllPieces, HasSecret, FirstSuffix, Subsequence, Clean, OccursAt, Join;
    value := original;
    for k := 0 to |secrets|
      invariant value == DeletedAll(original, secrets, k)
    {
      value := ReplaceAllBytes(value, secrets[k], []);
    }
    DeletedAllIs(original, secrets, |secrets|);
    assert secrets[..|secrets|] == secrets;
    if |value| == |original| || !HasSecret(value, secrets) {
      return;
    }
    var output: seq<byte> := [];
    for k := 0 to |value|
      invariant output == Reduced(value, secrets, k)
    {
      output := output + [value[k]];
      var suffix := FirstSuffix(output, secrets, 0);
      if suffix.Some? {
        output := output[..|output| - |secrets[suffix.value]|];
      }
    }
    value := output;
  }

  // ---------------------------------------------------------------------
  // Nothing but secrets is taken out
  // ---------------------------------------------------------------------

  /** One occurrence of a secret is cut out. */
  ghost predicate CutsOne(before: seq<byte>, after: seq<byte>, secrets: seq<seq<byte>>) {
    exists front, secret, back ::
      secret in secrets && secret != [] && before == front + secret + back && after == front + back
  }

  /**
   * The secret that comes to its end first is cut out, and of those that end there the first in the list: no secret
   * occurs in what stands in front of its last byte.
   */
  ghost predicate CutsFirst(before: seq<byte>, after: seq<byte>, secrets: seq<seq<byte>>) {
    exists front, i: nat, back ::
      && i < |secrets| && secrets[i] != [] && before == front + secrets[i] + back && after == front + back
      && Clean(front + secrets[i][..|secrets[i]| - 1], secrets)
      && forall j | 0 <= j < i :: secrets[j] == [] || !EndsWith(front + secrets[i], secrets[j])
  }

  /** From one text to another by cutting, any number of times. */
  ghost predicate ByCutting(texts: seq<seq<byte>>, secrets: seq<seq<byte>>) {
    texts != [] && forall k | 0 <= k < |texts| - 1 :: CutsOne(texts[k], texts[k + 1], secrets)
  }

  ghost predicate ByCuttingFirst(texts: seq<seq<byte>>, secrets: seq<seq<byte>>) {
    texts != [] && forall k | 0 <= k < |texts| - 1 :: CutsFirst(texts[k], texts[k + 1], secrets)
  }

  /** A text is what cutting out secrets, one occurrence after the other, leaves of another. */
  ghost predicate CutFrom(before: seq<byte>, after: seq<byte>, secrets: seq<seq<byte>>) {
    exists texts :: ByCutting(texts, secrets) && texts[0] == before && texts[|texts| - 1] == after
  }

  ghost predicate CutFirstFrom(before: seq<byte>, after: seq<byte>, secrets: seq<seq<byte>>) {
    exists texts :: ByCuttingFirst(texts, secrets) && texts[0] == before && texts[|texts| - 1] == after
  }

  lemma CutNothing(text: seq<byte>, secrets: seq<seq<byte>>)
    ensures CutFrom(text, text, secrets) && CutFirstFrom(text, text, secrets)
  {
    assert ByCutting([text], secrets) && ByCuttingFirst([text], secrets);
  }

  lemma CutOnce(before: seq<byte>, after: seq<byte>, secrets: seq<seq<byte>>)
    ensures CutsOne(before, after, secrets) ==> CutFrom(before, after, secrets)
    ensures CutsFirst(before, after, secrets) ==> CutFirstFrom(before, after, secrets)
  {
    hide CutsOne, CutsFirst;
    if CutsOne(before, after, secrets) {
      assert ByCutting([before, after], secrets);
    }
    if CutsFirst(before, after, secrets) {
      assert ByCuttingFirst([before, after], secrets);
    }
  }

  lemma CutFurther(a: seq<byte>, b: seq<byte>, c: seq<byte>, secrets: seq<seq<byte>>)
    requires CutFrom(a, b, secrets) && CutFrom(b, c, secrets)
    ensures CutFrom(a, c, secrets)
  {
    hide CutsOne;
    var s :| ByCutting(s, secrets) && s[0] == a && s[|s| - 1] == b;
    var t :| ByCutting(t, secrets) && t[0] == b && t[|t| - 1] == c;
    var all := s + t[1..];
    forall k | 0 <= k < |all| - 1
      ensures CutsOne(all[k], all[k + 1], secrets)
    {
      if k < |s| - 1 {
        assert all[k] == s[k] && all[k + 1] == s[k + 1];
      } else {
        assert all[k] == t[k - |s| + 1] && all[k + 1] == t[k - |s| + 2];
      }
    }
    assert ByCutting(all, secrets);
  }

  lemma CutFirstFurther(a: seq<byte>, b: seq<byte>, c: seq<byte>, secrets: seq<seq<byte>>)
    requires CutFirstFrom(a, b, secrets) && CutFirstFrom(b, c, secrets)
    ensures CutFirstFrom(a, c, secrets)
  {
    hide CutsFirst;
    var s :| ByCuttingFirst(s, secrets) && s[0] == a && s[|s| - 1] == b;
    var t :| ByCuttingFirst(t, secrets) && t[0] == b && t[|t| - 1] == c;
    var all := s + t[1..];
    forall k | 0 <= k < |all| - 1
      ensures CutsFirst(all[k], all[k + 1], secrets)
    {
      if k < |s| - 1 {
        assert all[k] == s[k] && all[k + 1] == s[k + 1];
      } else {
        assert all[k] == t[k - |s| + 1] && all[k + 1] == t[k - |s| + 2];
      }
    }
    assert ByCuttingFirst(all, secrets);
  }

  /** The pieces of a text with a secret between them are left when the secret is cut out between them. */
  lemma {:induction false} CutBetween(
    front: seq<byte>, pieces: seq<seq<byte>>, secret: seq<byte>, secrets: seq<seq<byte>>)
    requires pieces != [] && secret in secrets && secret != []
    ensures CutFrom(front + Join(pieces, secret), front + Join(pieces, []), secrets)
    decreases |pieces|
  {
    hide CutFrom;
    if |pieces| == 1 {
      CutNothing(front + pieces[0], secrets);
    } else {
      var rest, nothing := Join(pieces[1..], secret), Join(pieces[1..], []);
      assert front + (pieces[0] + secret + rest) == (front + pieces[0]) + secret + rest;
      assert CutsOne(front + Join(pieces, secret), (front + pieces[0]) + rest, secrets);
      CutOnce(front + Join(pieces, secret), (front + pieces[0]) + rest, secrets);
      CutBetween(front + pieces[0], pieces[1..], secret, secrets);
      assert (front + pieces[0]) + nothing == front + (pieces[0] + [] + nothing);
      CutFurther(
        front + Join(pieces, secret), (front + pieces[0]) + rest, (front + pieces[0]) + nothing, secrets);
    }
  }

  lemma {:induction false} DeletedAllCut(text: seq<byte>, secrets: seq<seq<byte>>, k: nat)
    requires k <= |secrets|
    ensures CutFrom(text, DeletedAll(text, secrets, k), secrets)
  {
    hide CutFrom, Deleted;
    if k == 0 {
      CutNothing(text, secrets);
    } else {
      var before, secret := DeletedAll(text, secrets, k - 1), secrets[k - 1];
      DeletedAllCut(text, secrets, k - 1);
      if secret == [] {
        DeletedIs(before, secret);
      } else {
        PiecesCut(before, secret);
        CutBetween([], Pieces(before, secret), secret, secrets);
        DeletedPieces(before, secret);
        assert [] + before == before && [] + Deleted(before, secret) == Deleted(before, secret);
        CutFurther(text, before, Deleted(before, secret), secrets);
      }
    }
  }

  lemma DeletedPieces(text: seq<byte>, secret: seq<byte>)
    requires secret != []
    ensures Deleted(text, secret) == Join(Pieces(text, secret), [])
  {
  }

  lemma FirstIsOne(before: seq<byte>, after: seq<byte>, secrets: seq<seq<byte>>)
    requires CutFirstFrom(before, after, secrets)
    ensures CutFrom(before, after, secrets)
  {
    var texts :| ByCuttingFirst(texts, secrets) && texts[0] == before && texts[|texts| - 1] == after;
    forall k | 0 <= k < |texts| - 1
      ensures CutsOne(texts[k], texts[k + 1], secrets)
    {
      assert CutsFirst(texts[k], texts[k + 1], secrets);
    }
    assert ByCutting(texts, secrets);
  }

  lemma PushedFrom(text: seq<byte>, output: seq<byte>, b: byte, back: seq<byte>, secrets: seq<seq<byte>>)
    requires Clean(output, secrets) && CutFirstFrom(text, output + [b] + back, secrets)
    ensures CutFirstFrom(text, Pushed(output, b, secrets) + back, secrets)
  {
    hide Clean, CutsFirst, CutFirstFrom, CutFrom;
    if FirstSuffix(output + [b], secrets, 0).Some? {
      PushedCuts(output, b, back, secrets);
      hide Pushed;
      CutOnce(output + [b] + back, Pushed(output, b, secrets) + back, secrets);
      CutFirstFurther(text, output + [b] + back, Pushed(output, b, secrets) + back, secrets);
    }
  }

  lemma ReducedNext(text: seq<byte>, secrets: seq<seq<byte>>, k: nat)
    requires k <= |text|
    ensures k == 0 ==> Reduced(text, secrets, k) + text[k..] == text
    ensures k > 0 ==> Reduced(text, secrets, k) == Pushed(Reduced(text, secrets, k - 1), text[k - 1], secrets)
  {
    hide Pushed;
  }

  lemma OneByteMore(output: seq<byte>, text: seq<byte>, k: nat)
    requires 0 < k <= |text|
    ensures output + text[k - 1..] == output + [text[k - 1]] + text[k..]
  {
  }

  /** Pushing bytes cuts out the secret that comes to its end first, again and again. */
  lemma {:induction false} ReducedCut(text: seq<byte>, secrets: seq<seq<byte>>, k: nat)
    requires k <= |text|
    ensures CutFirstFrom(text, Reduced(text, secrets, k) + text[k..], secrets)
  {
    hide *;
    ReducedNext(text, secrets, k);
    if k == 0 {
      CutNothing(text, secrets);
    } else {
      ReducedCut(text, secrets, k - 1);
      ReducedIs(text, secrets, k - 1);
      OneByteMore(Reduced(text, secrets, k - 1), text, k);
      PushedFrom(text, Reduced(text, secrets, k - 1), text[k - 1], text[k..], secrets);
    }
  }

  lemma PushedCuts(output: seq<byte>, b: byte, back: seq<byte>, secrets: seq<seq<byte>>)
    requires Clean(output, secrets) && FirstSuffix(output + [b], secrets, 0).Some?
    ensures CutsFirst(output + [b] + back, Pushed(output, b, secrets) + back, secrets)
  {
    hide Clean;
    var longer := output + [b];
    var i := FirstSuffix(longer, secrets, 0).value;
    var secret := secrets[i];
    var front := longer[..|longer| - |secret|];
    assert longer == front + secret;
    assert front + secret[..|secret| - 1] == output;
    assert forall j | 0 <= j < i :: secrets[j] == [] || !EndsWith(front + secret, secrets[j]);
  }

  /** There is only one way to cut out the secret that comes to its end first, and none from clean text. */
  lemma CutsFirstOnce(before: seq<byte>, a: seq<byte>, b: seq<byte>, secrets: seq<seq<byte>>)
    requires CutsFirst(before, a, secrets)
    ensures !Clean(before, secrets) && (CutsFirst(before, b, secrets) ==> a == b)
  {
    hide EndsWith, CutsFirst;
    var front, i, back := FirstCutOf(before, a, secrets);
    assert OccursAt(before, secrets[i], |front|) by {
      assert before[|front|..|front| + |secrets[i]|] == secrets[i];
    }
    if CutsFirst(before, b, secrets) {
      var front', i', back' := FirstCutOf(before, b, secrets);
      EndsNoSooner(before, front, secrets[i], back, front', secrets[i'], back', secrets);
      EndsNoSooner(before, front', secrets[i'], back', front, secrets[i], back, secrets);
      var n := |front| + |secrets[i]|;
      assert front + secrets[i] == before[..n] == front' + secrets[i'];
      EndsWithLast(front, secrets[i]);
      EndsWithLast(front', secrets[i']);
      assert front == before[..|front|] && front' == before[..|front'|];
      assert back == before[n..] == back';
    }
  }

  lemma EndsWithLast(front: seq<byte>, secret: seq<byte>)
    ensures EndsWith(front + secret, secret)
  {
    assert (front + secret)[|front|..] == secret;
  }

  lemma FirstCutOf(before: seq<byte>, after: seq<byte>, secrets: seq<seq<byte>>)
    returns (front: seq<byte>, i: nat, back: seq<byte>)
    requires CutsFirst(before, after, secrets)
    ensures i < |secrets| && secrets[i] != [] && before == front + secrets[i] + back && after == front + back
    ensures Clean(front + secrets[i][..|secrets[i]| - 1], secrets)
    ensures forall j | 0 <= j < i :: secrets[j] == [] || !EndsWith(front + secrets[i], secrets[j])
  {
    front, i, back :| i < |secrets| && secrets[i] != [] && before == front + secrets[i] + back && after == front + back
      && Clean(front + secrets[i][..|secrets[i]| - 1], secrets)
      && forall j | 0 <= j < i :: secrets[j] == [] || !EndsWith(front + secrets[i], secrets[j]);
  }

  lemma EndsNoSooner(
    before: seq<byte>, front: seq<byte>, secret: seq<byte>, back: seq<byte>, front': seq<byte>, secret': seq<byte>,
    back': seq<byte>, secrets: seq<seq<byte>>)
    requires before == front + secret + back == front' + secret' + back'
    requires secret != [] && secret in secrets && secret' != []
    requires Clean(front' + secret'[..|secret'| - 1], secrets)
    ensures |front'| + |secret'| <= |front| + |secret|
  {
    if |front| + |secret| < |front'| + |secret'| {
      var text := front' + secret'[..|secret'| - 1];
      assert text == before[..|text|];
      assert text[|front|..|front| + |secret|] == before[|front|..|front| + |secret|] == secret;
      assert OccursAt(text, secret, |front|);
    }
  }

  /** One pass over a text: all leftmost occurrences of a secret are cut out. */
  ghost predicate PassesOnce(before: seq<byte>, after: seq<byte>, secret: seq<byte>) {
    if secret == [] then after == before
    else
      exists pieces :: pieces != [] && CutLeftmost(pieces, secret)
        && before == Join(pieces, secret) && after == Join(pieces, [])
  }

  /** One pass for each secret, in the order of the list. */
  ghost predicate PassesInOrder(texts: seq<seq<byte>>, secrets: seq<seq<byte>>) {
    |texts| == |secrets| + 1 && forall k | 0 <= k < |secrets| :: PassesOnce(texts[k], texts[k + 1], secrets[k])
  }

  lemma DeletedPasses(text: seq<byte>, secret: seq<byte>, after: seq<byte>)
    ensures PassesOnce(text, after, secret) <==> after == Deleted(text, secret)
  {
    DeletedIs(text, secret);
    if secret != [] {
      PiecesCut(text, secret);
      DeletedPieces(text, secret);
      if PassesOnce(text, after, secret) {
        var pieces :| pieces != [] && CutLeftmost(pieces, secret)
                      && text == Join(pieces, secret) && after == Join(pieces, []);
        CutUnique(pieces, secret);
      }
    }
  }

  lemma {:induction false} PassesAre(texts: seq<seq<byte>>, secrets: seq<seq<byte>>, k: nat)
    requires PassesInOrder(texts, secrets) && k <= |secrets|
    ensures texts[k] == DeletedAll(texts[0], secrets, k)
  {
    hide PassesOnce, Deleted;
    if k > 0 {
      PassesAre(texts, secrets, k - 1);
      DeletedPasses(texts[k - 1], secrets[k - 1], texts[k]);
    }
  }

  /**
   * Nothing but secrets is taken out, one occurrence after the other. When one pass for each secret leaves none, what
   * the passes leave is the result; otherwise it is what is left of that by cutting out, again and again, the secret
   * that comes to its end first.
   */
  lemma RemovedCuts(text: seq<byte>, secrets: seq<seq<byte>>, texts: seq<seq<byte>>)
    requires PassesInOrder(texts, secrets) && texts[0] == text
    ensures CutFrom(text, Removed(text, secrets), secrets)
    ensures Clean(texts[|secrets|], secrets) ==> Removed(text, secrets) == texts[|secrets|]
    ensures CutFirstFrom(texts[|secrets|], Removed(text, secrets), secrets)
  {
    hide PassesInOrder, CutFrom, CutFirstFrom, Clean, DeletedAll, Reduced;
    PassesAre(texts, secrets, |secrets|);
    var passed := DeletedAll(text, secrets, |secrets|);
    DeletedAllCut(text, secrets, |secrets|);
    if HasSecret(passed, secrets) {
      ReducedCut(passed, secrets, |passed|);
      assert Reduced(passed, secrets, |passed|) + passed[|passed|..] == Reduced(passed, secrets, |passed|);
    } else {
      CutNothing(passed, secrets);
    }
    FirstIsOne(passed, Removed(text, secrets), secrets);
    CutFurther(text, passed, Removed(text, secrets), secrets);
  }

  /** The passes can be made over every text. */
  lemma PassesExist(text: seq<byte>, secrets: seq<seq<byte>>) returns (texts: seq<seq<byte>>)
    ensures PassesInOrder(texts, secrets) && texts[0] == text
  {
    hide Deleted, PassesOnce;
    texts := seq(|secrets| + 1, k requires 0 <= k <= |secrets| => DeletedAll(text, secrets, k));
    forall k | 0 <= k < |secrets|
      ensures PassesOnce(texts[k], texts[k + 1], secrets[k])
    {
      DeletedPasses(texts[k], secrets[k], texts[k + 1]);
    }
  }

  // ---------------------------------------------------------------------
  // Findings
  // ---------------------------------------------------------------------

  datatype RequiredFinding<M> = RequiredFinding(
    ruleId: seq<byte>, line: seq<byte>, matchText: seq<byte>, secret: seq<byte>, mapping: M)

  /** `mapping` stands for the location, ranges and entropy, which removal keeps, and `fragment` for the source text. */
  datatype Finding<M> = Finding(
    ruleId: seq<byte>, description: seq<byte>, line: seq<byte>, matchText: seq<byte>, secret: seq<byte>,
    file: seq<byte>,
    symlinkFile: seq<byte>, commit: seq<byte>, link: seq<byte>, author: seq<byte>, email: seq<byte>, date: seq<byte>,
    message: seq<byte>, fingerprint: seq<byte>, tags: seq<seq<byte>>, required: seq<RequiredFinding<M>>, mapping: M,
    fragment: Option<seq<byte>>)

  /** Longer secrets come first, and those of one length in lexicographic order. */
  predicate SecretLeq(a: seq<byte>, b: seq<byte>) {
    |a| > |b| || (|a| == |b| && LexLeq(a, b))
  }

  lemma SecretOrder()
    ensures Sorting.TotalPreorder(SecretLeq)
  {
    forall a, b
      ensures SecretLeq(a, b) || SecretLeq(b, a)
    {
      LexTotal(a, b);
    }
    forall a, b, c | SecretLeq(a, b) && SecretLeq(b, c)
      ensures SecretLeq(a, c)
    {
      if |a| == |b| == |c| {
        LexTransitive(a, b, c);
      }
    }
  }

  ghost predicate StrictlyOrdered(secrets: seq<seq<byte>>) {
    forall i, j | 0 <= i < j < |secrets| :: SecretLeq(secrets[i], secrets[j]) && secrets[i] != secrets[j]
  }

  /** Drops repeated neighbours, which in a sorted list are all repetitions. */
  method Dedup(sorted: seq<seq<byte>>) returns (secrets: seq<seq<byte>>)
    requires Sorting.SortedBy(SecretLeq, sorted)
    ensures StrictlyOrdered(secrets) && forall x :: x in secrets <==> x in sorted
  {
    secrets := [];
    for k := 0 to |sorted|
      invariant StrictlyOrdered(secrets)
      invariant forall x :: x in secrets <==> x in sorted[..k]
      invariant k == 0 ==> secrets == []
      invariant k > 0 ==> secrets != [] && secrets[|secrets| - 1] == sorted[k - 1]
    {
      assert sorted[..k + 1] == sorted[..k] + [sorted[k]];
      if secrets == [] || secrets[|secrets| - 1] != sorted[k] {
        AppendSecret(sorted, secrets, k);
        secrets := secrets + [sorted[k]];
      }
    }
    assert sorted[..|sorted|] == sorted;
  }

  lemma AppendSecret(sorted: seq<seq<byte>>, secrets: seq<seq<byte>>, k: nat)
    requires Sorting.SortedBy(SecretLeq, sorted) && k < |sorted| && StrictlyOrdered(secrets)
    requires forall x :: x in secrets <==> x in sorted[..k]
    requires secrets == [] || (k > 0 && secrets[|secrets| - 1] == sorted[k - 1] != sorted[k])
    ensures StrictlyOrdered(secrets + [sorted[k]])
  {
    forall i | 0 <= i < |secrets|
      ensures SecretLeq(secrets[i], sorted[k]) && secrets[i] != sorted[k]
    {
      assert secrets[i] in sorted[..k];
      var last := |secrets| - 1;
      if secrets[i] == sorted[k] {
        assert SecretLeq(sorted[k - 1], sorted[k]);
        assert i == last || SecretLeq(secrets[i], secrets[last]);
        LexAntisymmetric(sorted[k - 1], sorted[k]);
      }
    }
  }

  /** The secrets that a finding and its required findings detected. */
  ghost predicate AreSecretsOf<M>(secrets: seq<seq<byte>>, finding: Finding<M>) {
    && StrictlyOrdered(secrets)
    && forall x :: x in secrets <==> Detected(x, finding)
  }

  ghost predicate Detected<M>(secret: seq<byte>, finding: Finding<M>) {
    secret != []
      && (secret == finding.secret || exists k :: 0 <= k < |finding.required| && finding.required[k].secret == secret)
  }

  method SecretsOf<M>(finding: Finding<M>) returns (secrets: seq<seq<byte>>)
    ensures AreSecretsOf(secrets, finding)
  {
    var all: seq<seq<byte>> := [];
    for k := 0 to |finding.required|
      invariant forall x :: x in all <==> x != [] && exists i :: 0 <= i < k && finding.required[i].secret == x
    {
      if finding.required[k].secret != [] {
        all := all + [finding.required[k].secret];
      }
    }
    if finding.secret != [] {
      all := all + [finding.secret];
    }
    assert forall x :: x in all <==> Detected(x, finding);
    SecretOrder();
    var sorted := Sorting.Sort(SecretLeq, all);
    assert forall x :: x in sorted <==> x in multiset(sorted);
    assert forall x :: x in all <==> x in multiset(all);
    secrets := Dedup(sorted);
  }

  ghost predicate SameButRemoved(before: seq<seq<byte>>, after: seq<seq<byte>>, secrets: seq<seq<byte>>) {
    |after| == |before| && forall k | 0 <= k < |before| :: after[k] == Removed(before[k], secrets)
  }

  /** The texts of a finding that keep their place, apart from its secret. */
  function Texts<M>(finding: Finding<M>): (texts: seq<seq<byte>>)
    ensures |texts| == 13
  {
    [finding.ruleId, finding.description, finding.line, finding.matchText, finding.file, finding.symlinkFile,
     finding.commit, finding.link, finding.author, finding.email, finding.date, finding.message, finding.fingerprint]
  }

  function RequiredTexts<M>(finding: RequiredFinding<M>): (texts: seq<seq<byte>>)
    ensures |texts| == 3
  {
    [finding.ruleId, finding.line, finding.matchText]
  }

  ghost predicate RequiredCleaned<M>(before: RequiredFinding<M>, after: RequiredFinding<M>, secrets: seq<seq<byte>>) {
    && SameButRemoved(RequiredTexts(before), RequiredTexts(after), secrets)
    && after.secret == [] && after.mapping == before.mapping
  }

  /** Every text has had the secrets removed, the secrets themselves and the source text are gone, the rest is kept. */
  ghost predicate Cleaned<M>(before: Finding<M>, after: Finding<M>, secrets: seq<seq<byte>>) {
    && SameButRemoved(Texts(before), Texts(after), secrets)
    && SameButRemoved(before.tags, after.tags, secrets)
    && |after.required| == |before.required|
    && (forall k | 0 <= k < |before.required| :: RequiredCleaned(before.required[k], after.required[k], secrets))
    && after.secret == [] && after.fragment == None && after.mapping == before.mapping
  }

  method RemoveFromAll(before: seq<seq<byte>>, secrets: seq<seq<byte>>) returns (after: seq<seq<byte>>)
    ensures |after| == |before| && SameButRemoved(before, after, secrets)
  {
    hide Removed;
    after := [];
    for k := 0 to |before|
      invariant |after| == k && forall i | 0 <= i < k :: after[i] == Removed(before[i], secrets)
    {
      var value := RemoveDetectedSecrets(before[k], secrets);
      after := after + [value];
    }
  }

  method RemoveFromRequired<M>(finding: RequiredFinding<M>, secrets: seq<seq<byte>>)
    returns (cleaned: RequiredFinding<M>)
    ensures RequiredCleaned(finding, cleaned, secrets)
  {
    var texts := RemoveFromAll(RequiredTexts(finding), secrets);
    cleaned := RequiredFinding(texts[0], texts[1], texts[2], [], finding.mapping);
    assert RequiredTexts(cleaned) == texts;
  }

  method WithoutDetectedSecrets<M>(finding: Finding<M>) returns (cleaned: Finding<M>, ghost secrets: seq<seq<byte>>)
    ensures AreSecretsOf(secrets, finding) && Cleaned(finding, cleaned, secrets)
    ensures forall text, secret | Retains(cleaned, text) && Detected(secret, finding) :: !Contains(text, secret)
  {
    hide SameButRemoved, RequiredCleaned, Retains, Detected, Contains;
    var list := SecretsOf(finding);
    secrets := list;
    var t := RemoveFromAll(Texts(finding), list);
    var tags := RemoveFromAll(finding.tags, list);
    var required: seq<RequiredFinding<M>> := [];
    for k := 0 to |finding.required|
      invariant |required| == k
      invariant forall i | 0 <= i < k :: RequiredCleaned(finding.required[i], required[i], list)
    {
      var one := RemoveFromRequired(finding.required[k], list);
      required := required + [one];
    }
    assert |t| == 13;
    cleaned := Finding(t[0], t[1], t[2], t[3], [], t[4], t[5], t[6], t[7], t[8], t[9], t[10], t[11], t[12], tags,
      required,
                       finding.mapping, None);
    assert Texts(cleaned) == t;
    forall text, secret | Retains(cleaned, text) && Detected(secret, finding)
      ensures !Contains(text, secret)
    {
      NoSecretRetained(finding, cleaned, secrets, text, secret);
    }
  }

  /** A text that a finding retains. */
  ghost predicate Retains<M>(finding: Finding<M>, text: seq<byte>) {
    || text in Texts(finding) || text in finding.tags || text == finding.secret
    || exists k ::
         && 0 <= k < |finding.required|
         && (text in RequiredTexts(finding.required[k]) || text == finding.required[k].secret)
  }

  lemma CleanedText(before: seq<seq<byte>>, after: seq<seq<byte>>, secrets: seq<seq<byte>>, text: seq<byte>)
    requires SameButRemoved(before, after, secrets) && text in after
    ensures Clean(text, secrets)
  {
    var k :| 0 <= k < |after| && after[k] == text;
    RemovedIsClean(before[k], secrets);
  }

  /** No detected secret occurs in anything that the cleaned finding retains. */
  lemma NoSecretRetained<M>(
    finding: Finding<M>, cleaned: Finding<M>, secrets: seq<seq<byte>>, text: seq<byte>, secret: seq<byte>)
    requires AreSecretsOf(secrets, finding) && Cleaned(finding, cleaned, secrets)
    requires Retains(cleaned, text) && Detected(secret, finding)
    ensures !Contains(text, secret)
  {
    hide SameButRemoved, Contains;
    NothingContained();
    if text in Texts(cleaned) {
      CleanedText(Texts(finding), Texts(cleaned), secrets, text);
    } else if text in cleaned.tags {
      CleanedText(finding.tags, cleaned.tags, secrets, text);
    } else if text != [] {
      var k :| 0 <= k < |cleaned.required| && text in RequiredTexts(cleaned.required[k]);
      CleanedText(RequiredTexts(finding.required[k]), RequiredTexts(cleaned.required[k]), secrets, text);
    }
    assert text != [] ==> Clean(text, secrets);
    var i :| 0 <= i < |secrets| && secrets[i] == secret;
  }

  /** No detected secret occurs in any field of the cleaned finding. */
  lemma NoSecretInFields<M>(
    finding: Finding<M>, cleaned: Finding<M>, secrets: seq<seq<byte>>, secret: seq<byte>)
    requires AreSecretsOf(secrets, finding) && Cleaned(finding, cleaned, secrets)
    requires secret != [] && (secret == finding.secret || exists r :: r in finding.required && r.secret == secret)
    ensures !Contains(cleaned.ruleId, secret) && !Contains(cleaned.description, secret)
    ensures !Contains(cleaned.line, secret) && !Contains(cleaned.matchText, secret)
    ensures !Contains(cleaned.file, secret) && !Contains(cleaned.symlinkFile, secret)
    ensures !Contains(cleaned.commit, secret) && !Contains(cleaned.link, secret)
    ensures !Contains(cleaned.author, secret) && !Contains(cleaned.email, secret) && !Contains(cleaned.date, secret)
    ensures !Contains(cleaned.message, secret) && !Contains(cleaned.fingerprint, secret)
    ensures forall tag | tag in cleaned.tags :: !Contains(tag, secret)
    ensures forall r | r in cleaned.required ::
              !Contains(r.ruleId, secret) && !Contains(r.line, secret) && !Contains(r.matchText, secret)
                && r.secret == []
    ensures cleaned.secret == [] && cleaned.fragment == None
  {
    hide Contains, Cleaned, AreSecretsOf, Retains;
    assert Detected(secret, finding);
    forall text | Retains(cleaned, text)
      ensures !Contains(text, secret)
    {
      NoSecretRetained(finding, cleaned, secrets, text, secret);
    }
    FieldsRetained(cleaned);
    SecretsGone(finding, cleaned, secrets);
  }

  lemma SecretsGone<M>(finding: Finding<M>, cleaned: Finding<M>, secrets: seq<seq<byte>>)
    requires Cleaned(finding, cleaned, secrets)
    ensures cleaned.secret == [] && cleaned.fragment == None && forall r | r in cleaned.required :: r.secret == []
  {
    hide SameButRemoved;
    forall k | 0 <= k < |cleaned.required|
      ensures cleaned.required[k].secret == []
    {
      assert RequiredCleaned(finding.required[k], cleaned.required[k], secrets);
    }
  }

  lemma FieldsRetained<M>(f: Finding<M>)
    ensures Retains(f, f.ruleId) && Retains(f, f.description) && Retains(f, f.line) && Retains(f, f.matchText)
    ensures Retains(f, f.file) && Retains(f, f.symlinkFile) && Retains(f, f.commit) && Retains(f, f.link)
    ensures Retains(f, f.author) && Retains(f, f.email) && Retains(f, f.date) && Retains(f, f.message)
    ensures Retains(f, f.fingerprint) && forall tag | tag in f.tags :: Retains(f, tag)
    ensures forall r | r in f.required :: Retains(f, r.ruleId) && Retains(f, r.line) && Retains(f, r.matchText)
  {
    var t := Texts(f);
    assert t[0] in t && t[1] in t && t[2] in t && t[3] in t && t[4] in t && t[5] in t && t[6] in t;
    assert t[7] in t && t[8] in t && t[9] in t && t[10] in t && t[11] in t && t[12] in t;
    forall k | 0 <= k < |f.required|
      ensures Retains(f, f.required[k].ruleId) && Retains(f, f.required[k].line)
      ensures Retains(f, f.required[k].matchText)
    {
      var texts := RequiredTexts(f.required[k]);
      assert texts[0] in texts && texts[1] in texts && texts[2] in texts;
    }
  }

  /** Longer secrets are removed first, and those of one length in the order of their first different byte. */
  lemma LongestFirst<M>(secrets: seq<seq<byte>>, finding: Finding<M>, i: nat, j: nat)
    requires AreSecretsOf(secrets, finding) && i < j < |secrets|
    ensures |secrets[i]| >= |secrets[j]|
    ensures |secrets[i]| == |secrets[j]| ==>
              exists k: nat :: k < |secrets[i]| && secrets[i][..k] == secrets[j][..k] && secrets[i][k] < secrets[j][k]
  {
    if |secrets[i]| == |secrets[j]| {
      FirstDifference(secrets[i], secrets[j]);
    }
  }

  lemma {:induction false} FirstDifference(a: seq<byte>, b: seq<byte>)
    requires |a| == |b| && a != b && LexLeq(a, b)
    ensures exists k: nat :: k < |a| && a[..k] == b[..k] && a[k] < b[k]
  {
    if a[0] == b[0] {
      assert a == [a[0]] + a[1..] && b == [b[0]] + b[1..];
      FirstDifference(a[1..], b[1..]);
      var k: nat :| k < |a[1..]| && a[1..][..k] == b[1..][..k] && a[1..][k] < b[1..][k];
      assert a[..k + 1] == [a[0]] + a[1..][..k] && b[..k + 1] == [b[0]] + b[1..][..k];
      assert a[k + 1] < b[k + 1];
    } else {
      assert a[..0] == b[..0];
    }
  }

  lemma NoMembers(secrets: seq<seq<byte>>)
    ensures (forall x :: x !in secrets) ==> secrets == []
  {
    assert secrets != [] ==> secrets[0] in secrets;
  }

  /** Cleaning a cleaned finding changes nothing. */
  lemma CleaningTwice<M>(
    finding: Finding<M>, once: Finding<M>, twice: Finding<M>, secrets: seq<seq<byte>>, later: seq<seq<byte>>)
    requires Cleaned(finding, once, secrets)
    requires AreSecretsOf(later, once) && Cleaned(once, twice, later)
    ensures twice == once
  {
    hide Contains;
    NoMembers(later);
    assert forall x :: !Detected(x, once);
    NothingRemoved(Texts(once), Texts(twice));
    NothingRemoved(once.tags, twice.tags);
    forall k | 0 <= k < |once.required|
      ensures twice.required[k] == once.required[k]
    {
      NothingRemoved(RequiredTexts(once.required[k]), RequiredTexts(twice.required[k]));
    }
  }

  lemma NothingRemoved(before: seq<seq<byte>>, after: seq<seq<byte>>)
    requires SameButRemoved(before, after, [])
    ensures after == before
  {
    forall k | 0 <= k < |before|
      ensures after[k] == before[k]
    {
      RemovedIs(before[k], []);
    }
  }
}
