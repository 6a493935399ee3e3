/** Masking secrets in log messages: every secret in turn is replaced by `***`. */
module Masking {

  const MASK := "***"

  ghost predicate At(text: string, part: string, i: int) {
    0 <= i && i + |part| <= |text| && text[i..i + |part|] == part
  }

  lemma CharAt(text: string, part: string, i: int, k: nat)
    requires At(text, part, i) && k < |part|
    ensures text[i + k] == part[k]
  {
    assert text[i..i + |part|][k] == text[i + k];
  }

  lemma AtLater(text: string, part: string, n: nat, j: int)
    requires n <= |text| && 0 <= j
    ensures At(text[n..], part, j) <==> At(text, part, n + j)
  {
    if j + |part| <= |text| - n {
      assert text[n..][j..j + |part|] == text[n + j..n + j + |part|];
    }
  }

  ghost predicate Occurs(part: string, text: string) {
    exists i :: At(text, part, i)
  }

  /** Python's `str.replace`: from the left, without overlaps. */
  function Replace(text: string, secret: string): string
    requires secret != ""
  {
    if text == "" then ""
    else if secret <= text then MASK + Replace(text[|secret|..], secret)
    else [text[0]] + Replace(text[1..], secret)
  }

  function MaskAll(message: string, secrets: seq<string>): string
    decreases secrets
  {
    if secrets == [] then message
    else MaskAll(if secrets[0] == "" then message else Replace(message, secrets[0]), secrets[1..])
  }

  /** `_mask` */
  method Mask(message: string, secrets: seq<string>) returns (shown: string)
    ensures shown == MaskAll(message, secrets)
  {
    shown := message;
    for i := 0 to |secrets|
      invariant MaskAll(shown, secrets[i..]) == MaskAll(message, secrets)
    {
      hide Replace;
      assert secrets[i..][0] == secrets[i] && secrets[i..][1..] == secrets[i + 1..];
      if secrets[i] != "" {
        shown := Replace(shown, secrets[i]);
      }
    }
  }

  // ---------------------------------------------------------- what replacing does

  /** A text in which the secret does not occur stays as it is. */
  lemma {:induction false} Unchanged(text: string, secret: string)
    requires secret != "" && !Occurs(secret, text)
    ensures Replace(text, secret) == text
    decreases |text|
  {
    if text != "" {
      assert !(secret <= text) by {
        assert secret <= text ==> At(text, secret, 0);
      }
      assert [text[0]] + text[1..] == text;
      if Occurs(secret, text[1..]) {
        OccursLater(secret, [text[0]], text[1..]);
      }
      Unchanged(text[1..], secret);
    }
  }

  /** The mask takes the place of the first occurrence, and the text after it is
      replaced in the same way. */
  lemma {:induction false} FirstReplaced(text: string, secret: string, i: nat)
    requires secret != "" && At(text, secret, i) && forall j :: 0 <= j < i ==> !At(text, secret, j)
    ensures Replace(text, secret) == text[..i] + MASK + Replace(text[i + |secret|..], secret)
    decreases |text|
  {
    if i == 0 {
      assert text[..|secret|] == secret;
      assert secret <= text;
    } else {
      AtStart(text, secret);
      var rest, before := text[1..], i - 1;
      forall j | 0 <= j <= before
        ensures At(rest, secret, j) <==> At(text, secret, j + 1)
      {
        AtLater(text, secret, 1, j);
      }
      FirstReplaced(rest, secret, before);
      assert rest[before + |secret|..] == text[i + |secret|..];
      assert [text[0]] + rest[..before] == text[..i];
    }
  }

  lemma AtStart(text: string, part: string)
    ensures part <= text <==> At(text, part, 0)
  {
    assert part <= text ==> text[0..|part|] == part;
    assert At(text, part, 0) ==> text[..|part|] == part;
  }

  /** A message in which no secret occurs is shown as it is. */
  lemma {:induction false} ShownAsItIs(message: string, secrets: seq<string>)
    requires forall s :: s in secrets && s != "" ==> !Occurs(s, message)
    ensures MaskAll(message, secrets) == message
    decreases secrets
  {
    if secrets != [] {
      if secrets[0] != "" {
        Unchanged(message, secrets[0]);
      }
      ShownAsItIs(message, secrets[1..]);
    }
  }

  /** The secrets are masked one after the other, empty ones not at all. */
  lemma {:induction false} MaskedInTurn(message: string, secrets: seq<string>, last: string)
    ensures MaskAll(message, secrets + [last]) ==
      if last == "" then MaskAll(message, secrets) else Replace(MaskAll(message, secrets), last)
    decreases secrets
  {
    hide Replace;
    var all := secrets + [last];
    if secrets == [] {
      assert all == [last] && all[1..] == [];
    } else {
      assert all[0] == secrets[0] && all[1..] == secrets[1..] + [last];
      MaskedInTurn(if secrets[0] == "" then message else Replace(message, secrets[0]), secrets[1..], last);
    }
  }

  // -------------------------------------------------------- what stays hidden

  /** No star at its end and no mask inside. */
  ghost predicate Tail(part: string) {
    && (part != "" ==> part[|part| - 1] != '*')
    && !Occurs(MASK, part)
  }

  /** A text no mask can be part of. */
  ghost predicate Maskable(secret: string) {
    secret != "" && secret[0] != '*' && Tail(secret)
  }

  lemma OccursLater(part: string, head: string, text: string)
    requires Occurs(part, text)
    ensures Occurs(part, head + text)
  {
    var i :| At(text, part, i);
    assert At(head + text, part, |head| + i) by {
      assert (head + text)[|head| + i..|head| + i + |part|] == text[i..i + |part|];
    }
  }

  lemma TailOfTail(part: string)
    requires Tail(part) && part != ""
    ensures Tail(part[1..])
  {
    assert [part[0]] + part[1..] == part;
    if Occurs(MASK, part[1..]) {
      OccursLater(MASK, [part[0]], part[1..]);
    }
  }

  lemma MaskIsNoTail(part: string, rest: string)
    requires part <= MASK + rest && part != ""
    ensures !Tail(part)
  {
    assert part[|part| - 1] == (MASK + rest)[|part| - 1];
    if |part| >= 3 {
      assert part[0..3] == MASK;
      assert At(part, MASK, 0);
    }
  }

  lemma StartsInMask(part: string, rest: string, i: nat)
    requires part != "" && At(MASK + rest, part, i) && i < 3
    ensures part[0] == '*'
  {
    assert part[0] == (MASK + rest)[i];
  }

  /** A prefix that no mask can be part of was there before replacing. */
  lemma {:induction false} PrefixWasThere(text: string, secret: string, part: string)
    requires secret != "" && Tail(part) && part <= Replace(text, secret)
    ensures part <= text
    decreases |text|
  {
    if text != "" && part != "" {
      if secret <= text {
        MaskIsNoTail(part, Replace(text[|secret|..], secret));
      } else {
        var rest := Replace(text[1..], secret);
        assert part[0] == text[0];
        assert part[1..] <= rest by {
          assert ([text[0]] + rest)[1..] == rest;
        }
        TailOfTail(part);
        PrefixWasThere(text[1..], secret, part[1..]);
        assert part == [part[0]] + part[1..] && text == [text[0]] + text[1..];
      }
    }
  }

  /** An occurrence in `head + text` is in `text` or starts in `head`. */
  lemma OccursWhere(part: string, head: string, text: string, i: nat)
    requires At(head + text, part, i) && i >= |head|
    ensures Occurs(part, text)
  {
    assert text[i - |head|..i - |head| + |part|] == (head + text)[i..i + |part|];
    assert At(text, part, i - |head|);
  }

  lemma NotInMask(part: string, rest: string)
    requires Maskable(part) && Occurs(part, MASK + rest)
    ensures Occurs(part, rest)
  {
    var i :| At(MASK + rest, part, i);
    if i < 3 {
      StartsInMask(part, rest, i);
    } else {
      OccursWhere(part, MASK, rest, i);
    }
  }

  lemma PrefixOccurs(part: string, text: string)
    requires part <= text
    ensures Occurs(part, text)
  {
    assert At(text, part, 0);
  }

  lemma FirstOrLater(part: string, head: char, rest: string)
    requires Occurs(part, [head] + rest)
    ensures part <= [head] + rest || Occurs(part, rest)
  {
    var i :| At([head] + rest, part, i);
    if i > 0 {
      OccursWhere(part, [head], rest, i);
    }
  }

  /** Replacing brings no maskable text about that was not there. */
  lemma {:induction false} NothingNew(text: string, secret: string, part: string)
    requires secret != "" && Maskable(part) && Occurs(part, Replace(text, secret))
    ensures Occurs(part, text)
    decreases |text|
  {
    hide At, Occurs, Tail;
    if text != "" {
      if secret <= text {
        NotInMask(part, Replace(text[|secret|..], secret));
        NothingNew(text[|secret|..], secret, part);
        OccursLater(part, text[..|secret|], text[|secret|..]);
        assert text[..|secret|] + text[|secret|..] == text;
      } else {
        FirstOrLater(part, text[0], Replace(text[1..], secret));
        if part <= Replace(text, secret) {
          PrefixWasThere(text, secret, part);
          PrefixOccurs(part, text);
        } else {
          NothingNew(text[1..], secret, part);
          OccursLater(part, [text[0]], text[1..]);
          assert [text[0]] + text[1..] == text;
        }
      }
    }
  }

  /** A maskable secret is gone once it was replaced. */
  lemma {:induction false} Removed(text: string, secret: string)
    requires Maskable(secret)
    ensures !Occurs(secret, Replace(text, secret))
    decreases |text|
  {
    if text != "" && Occurs(secret, Replace(text, secret)) {
      if secret <= text {
        NotInMask(secret, Replace(text[|secret|..], secret));
        Removed(text[|secret|..], secret);
      } else {
        FirstOrLater(secret, text[0], Replace(text[1..], secret));
        if secret <= Replace(text, secret) {
          PrefixWasThere(text, secret, secret);
        } else {
          Removed(text[1..], secret);
        }
      }
    }
  }

  lemma {:induction false} MaskAddsNothing(message: string, secrets: seq<string>, part: string)
    requires Maskable(part) && Occurs(part, MaskAll(message, secrets))
    ensures Occurs(part, message)
    decreases secrets
  {
    if secrets != [] {
      var next := if secrets[0] == "" then message else Replace(message, secrets[0]);
      MaskAddsNothing(next, secrets[1..], part);
      if secrets[0] != "" {
        NothingNew(message, secrets[0], part);
      }
    }
  }

  /** A maskable secret does not occur in the masked message, whatever the
      other secrets and the message are, and however they overlap. */
  lemma {:induction false} SecretHidden(message: string, secrets: seq<string>, secret: string)
    requires secret in secrets && Maskable(secret)
    ensures !Occurs(secret, MaskAll(message, secrets))
    decreases secrets
  {
    var next := if secrets[0] == "" then message else Replace(message, secrets[0]);
    if secrets[0] == secret {
      Removed(message, secret);
      if Occurs(secret, MaskAll(next, secrets[1..])) {
        MaskAddsNothing(next, secrets[1..], secret);
      }
    } else {
      SecretHidden(next, secrets[1..], secret);
    }
  }

  /** In particular any secret without a star. */
  lemma StarFreeMaskable(secret: string)
    requires secret != "" && '*' !in secret
    ensures Maskable(secret)
  {
    if i :| At(secret, MASK, i) {
      CharAt(secret, MASK, i, 0);
    }
  }

  // ----------------------------------------------------------- what can leak

  /** A text without stars that does not overlap itself. */
  ghost function Marker(n: nat): (r: string)
    ensures |r| == n + 1 && r[n] == 'b' && forall i :: 0 <= i < n ==> r[i] == 'a'
  {
    seq(n, i => 'a') + "b"
  }

  /** Before its place, the text does not occur. */
  lemma MarkerFirst(head: string, n: nat, tail: string)
    requires head != "" && |head| <= n
    ensures !(Marker(n) <= head + Marker(n) + tail)
  {
    var text := head + Marker(n) + tail;
    assert text[n] == Marker(n)[n - |head|];
  }

  lemma MarkerReplaced(head: string, n: nat, tail: string)
    requires |head| <= n && |tail| <= n
    ensures Replace(head + Marker(n) + tail, Marker(n)) == head + MASK + tail
  {
    var text, i, marker := head + Marker(n) + tail, |head|, Marker(n);
    forall k | 0 <= k < i
      ensures !At(text, marker, k)
    {
      MarkerNotBefore(head, n, tail, k);
    }
    hide Replace, Marker;
    assert text[i..i + |marker|] == marker;
    FirstReplaced(text, marker, i);
    assert text[i + |marker|..] == tail && text[..i] == head;
    Unchanged(tail, marker);
  }

  lemma MarkerNotBefore(head: string, n: nat, tail: string, k: nat)
    requires k < |head| <= n
    ensures !At(head + Marker(n) + tail, Marker(n), k)
  {
    var text := head + Marker(n) + tail;
    MarkerFirst(head[k..], n, tail);
    hide Marker;
    assert text[k..] == head[k..] + Marker(n) + tail;
    AtStart(text[k..], Marker(n));
    AtLater(text, Marker(n), k, 0);
  }

  /** Between a head and a tail, a second secret makes the first one appear. */
  lemma LeaksBetween(head: string, tail: string, n: nat, secret: string)
    requires secret != "" && |head| <= n && |tail| <= n
    requires Occurs(secret, head + MASK + tail) && !Occurs(secret, head + Marker(n) + tail)
    ensures Occurs(secret, MaskAll(head + Marker(n) + tail, [secret, Marker(n)]))
  {
    var message, marker := head + Marker(n) + tail, Marker(n);
    Unchanged(message, secret);
    MarkerReplaced(head, n, tail);
    assert [secret, marker][1..] == [marker] && [marker][1..] == [];
    assert MaskAll(head + MASK + tail, []) == head + MASK + tail;
    assert MaskAll(message, [marker]) == head + MASK + tail;
  }

  /** A star of the secret would fall into the marker. */
  lemma StarFallsIntoMarker(head: string, tail: string, n: nat, secret: string, k: nat)
    requires k < |secret| && secret[k] == '*'
    requires |head| <= k && |tail| + k < |secret|
    ensures !Occurs(secret, head + Marker(n) + tail)
  {
    var text := head + Marker(n) + tail;
    forall i
      ensures !At(text, secret, i)
    {
      assert 0 <= i && i + |secret| <= |text| ==> text[i + k] == Marker(n)[i + k - |head|];
      if At(text, secret, i) {
        CharAt(text, secret, i, k);
      }
    }
  }

  ghost predicate HiddenAlways(secret: string) {
    forall message, secrets :: secret in secrets ==> !Occurs(secret, MaskAll(message, secrets))
  }

  /** A non-empty secret is hidden in every message and with every other secret
      exactly when it neither starts nor ends with a star nor contains a mask. */
  lemma HiddenExactlyWhen(secret: string)
    requires secret != ""
    ensures HiddenAlways(secret) <==> Maskable(secret)
  {
    if Maskable(secret) {
      forall message, secrets | secret in secrets
        ensures !Occurs(secret, MaskAll(message, secrets))
      {
        SecretHidden(message, secrets, secret);
      }
    } else {
      Leaks(secret);
    }
  }

  lemma Leaks(secret: string)
    requires secret != "" && !Maskable(secret)
    ensures !HiddenAlways(secret)
  {
    var n := |secret|;
    var head, tail, k := Around(secret);
    StarFallsIntoMarker(head, tail, n, secret, k);
    LeaksBetween(head, tail, n, secret);
    assert secret in [secret, Marker(n)];
  }

  /** What is left of the secret around a star or mask in it. */
  lemma Around(secret: string) returns (head: string, tail: string, k: nat)
    requires secret != "" && !Maskable(secret)
    ensures k < |secret| && secret[k] == '*'
    ensures |head| <= k && |tail| + k < |secret|
    ensures Occurs(secret, head + MASK + tail)
  {
    var last := |secret| - 1;
    if secret[0] == '*' {
      head, tail, k := "", secret[1..], 0;
      assert (head + MASK + tail)[2..2 + |secret|] == secret;
      assert At(head + MASK + tail, secret, 2);
    } else if secret[last] == '*' {
      head, tail, k := secret[..last], "", last;
      assert (head + MASK + tail)[0..|secret|] == secret;
      assert At(head + MASK + tail, secret, 0);
    } else {
      var i :| At(secret, MASK, i);
      head, tail, k := secret[..i], secret[i + 3..], i;
      assert secret[i..i + 3][0] == '*';
      assert head + MASK + tail == secret;
      assert At(head + MASK + tail, secret, 0) by {
        assert secret[0..|secret|] == secret;
      }
    }
  }
}
