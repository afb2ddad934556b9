/** The values that cross the service boundaries: the transaction event and small helpers. */
module Domain {

  datatype Option<+T> = None | Some(value: T)

  /** A transaction event as it travels on the topic. Instants are nanoseconds since the epoch,
      `utcOffset` is the offset of the event's own clock from UTC, in nanoseconds. */
  datatype Message = Message(
    schemaVersion: string,
    eventId: string,
    userId: string,
    accountId: string,
    eventType: string,
    amount: real,
    currency: string,
    merchantId: Option<string>,
    deviceId: Option<string>,
    location: Option<string>,
    eventTime: int,
    utcOffset: int,
    receivedAt: int,
    traceId: string
  )

  /** ASCII whitespace as the platform's blank test sees it. */
  predicate IsWhitespace(c: char) { 9 <= c as int <= 13 || 28 <= c as int <= 32 }

  predicate IsBlank(s: string) { forall i :: 0 <= i < |s| ==> IsWhitespace(s[i]) }

  /** A value no longer than `max`; a longer one is cut. */
  function Limit(value: Option<string>, max: nat): Option<string> {
    if value.None? || |value.value| <= max then value else Some(value.value[..max])
  }

  /** What is left of a text when at most `max` characters are kept. */
  predicate IsCutOf(kept: Option<string>, text: Option<string>, max: nat) {
    && (kept.Some? <==> text.Some?)
    && (kept.Some? ==> kept.value <= text.value && |kept.value| == if |text.value| <= max then |text.value| else max)
  }

  lemma CutIsLimit(kept: Option<string>, text: Option<string>, max: nat)
    ensures IsCutOf(kept, text, max) <==> kept == Limit(text, max)
  {
    if text.Some? && kept.Some? {
      assert kept.value <= text.value ==> kept.value == text.value[..|kept.value|];
      assert text.value[..|text.value|] == text.value;
    }
  }

  // Trimming drops the characters up to the space from both ends.

  function TrimLeft(s: string): string { if s != "" && s[0] <= ' ' then TrimLeft(s[1..]) else s }

  function TrimRight(s: string): string {
    if s != "" && s[|s| - 1] <= ' ' then TrimRight(s[..|s| - 1]) else s
  }

  function Trim(s: string): string { TrimRight(TrimLeft(s)) }

  predicate Padding(s: string) { forall i :: 0 <= i < |s| ==> s[i] <= ' ' }

  /** Skipping `i` leading blanks up to a character that is none. */
  lemma {:induction false} TrimLeftIs(s: string, i: nat)
    requires i <= |s| && Padding(s[..i]) && (i < |s| ==> s[i] > ' ')
    ensures TrimLeft(s) == s[i..]
    decreases i
  {
    if i == 0 {
    } else {
      assert s[..i][0] == s[0];
      assert s[1..][..i - 1] == s[..i][1..];
      TrimLeftIs(s[1..], i - 1);
      assert s[1..][i - 1..] == s[i..];
    }
  }

  lemma {:induction false} TrimRightIs(s: string, j: nat)
    requires j <= |s| && Padding(s[j..]) && (j > 0 ==> s[j - 1] > ' ')
    ensures TrimRight(s) == s[..j]
    decreases |s|
  {
    if j == |s| {
      assert s[..j] == s;
    } else {
      var t := s[..|s| - 1];
      assert s[j..][|s| - 1 - j] == s[|s| - 1];
      assert t[j..] == s[j..][..|s| - 1 - j];
      TrimRightIs(t, j);
      assert t[..j] == s[..j];
    }
  }

  lemma {:induction false} FirstText(s: string) returns (i: nat)
    ensures i <= |s| && Padding(s[..i]) && (i < |s| ==> s[i] > ' ')
    decreases |s|
  {
    if s == "" || s[0] > ' ' {
      i := 0;
    } else {
      var rest := FirstText(s[1..]);
      i := rest + 1;
      forall k | 0 <= k < i ensures s[..i][k] <= ' ' {
        if k > 0 { assert s[1..][..rest][k - 1] == s[k]; }
      }
    }
  }

  lemma {:induction false} LastText(s: string) returns (j: nat)
    ensures j <= |s| && Padding(s[j..]) && (j > 0 ==> s[j - 1] > ' ')
    decreases |s|
  {
    if s == "" || s[|s| - 1] > ' ' {
      j := |s|;
    } else {
      var t := s[..|s| - 1];
      j := LastText(t);
      forall k | 0 <= k < |s| - j ensures s[j..][k] <= ' ' {
        if k < |t| - j { assert t[j..][k] == s[j + k]; }
      }
    }
  }

  /** Trimming leaves a stretch of the text, with nothing but blanks before and after it. */
  lemma TrimIsSlice(s: string) returns (i: nat, j: nat)
    ensures i <= j <= |s| && Trim(s) == s[i..j] && Padding(s[..i]) && Padding(s[j..])
  {
    i := FirstText(s);
    TrimLeftIs(s, i);
    var t := s[i..];
    var n := LastText(t);
    TrimRightIs(t, n);
    j := i + n;
    assert t[..n] == s[i..j] && t[n..] == s[j..];
  }

  /** A stretch that neither begins nor ends blank, with blanks around it, is what trimming leaves. */
  lemma SliceIsTrim(s: string, i: nat, j: nat)
    requires i < j <= |s| && Padding(s[..i]) && Padding(s[j..]) && s[i] > ' ' && s[j - 1] > ' '
    ensures Trim(s) == s[i..j]
  {
    TrimLeftIs(s, i);
    var t := s[i..];
    assert t[j - i..] == s[j..] && t[..j - i] == s[i..j] && t[j - i - 1] == s[j - 1];
    TrimRightIs(t, j - i);
  }
}
