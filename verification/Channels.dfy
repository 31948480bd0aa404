/** Tuning to a channel by typing its number (keymap.py, digits_to_keys, and
    media_player.py, async_play_media). */
module Channels {
  import opened Prelude
  import opened Text
  import opened PythonInt
  import opened Numerals

  const NUMBER_0: byte := 0x20

  function DigitKey(c: char): byte
    requires IsDigit(c, 10)
  {
    NUMBER_0 + DigitOf(c).value
  }

  function KeysOf(digits: string): (keys: seq<byte>)
    requires forall c :: c in digits ==> IsDigit(c, 10)
    ensures |keys| == |digits|
    ensures forall i :: 0 <= i < |keys| ==> IsDigit(digits[i], 10) && keys[i] == DigitKey(digits[i])
  {
    seq(|digits|, i requires 0 <= i < |digits| => assert digits[i] in digits; DigitKey(digits[i]))
  }

  /** `digits_to_keys`; None is ValueError. */
  function DigitsToKeys(channel: int): Option<seq<byte>> {
    if channel < 0 then None else Some(KeysOf(Dec(channel)))
  }

  /** The number a television reads from digit keys. */
  function Typed(keys: seq<byte>): int {
    if keys == [] then 0 else Typed(keys[..|keys| - 1]) * 10 + (keys[|keys| - 1] - NUMBER_0)
  }

  lemma {:induction false} TypedIsValue(digits: string)
    requires forall c :: c in digits ==> IsDigit(c, 10)
    ensures Typed(KeysOf(digits)) == DigitsValue(digits, 10)
  {
    if digits != "" {
      var n := |digits| - 1;
      assert digits[n] in digits && forall c :: c in digits[..n] ==> c in digits;
      TypedIsValue(digits[..n]);
      assert KeysOf(digits)[..n] == KeysOf(digits[..n]);
    }
  }

  lemma KeysAreDigitKeys(digits: string)
    requires forall c :: c in digits ==> IsDigit(c, 10)
    ensures forall i :: 0 <= i < |digits| ==> 0x20 <= KeysOf(digits)[i] <= 0x29
    ensures digits != "" && KeysOf(digits)[0] == 0x20 ==> DigitOf(digits[0]) == Some(0)
  {
    assert forall i :: 0 <= i < |digits| ==> KeysOf(digits)[i] == DigitKey(digits[i]);
  }

  /** The keys of a channel are digit keys, spell the channel, as briefly as
      possible: they are as many as it has decimal digits, and the first one is
      not a zero unless the channel is zero. */
  lemma KeysSpellChannel(channel: nat)
    ensures var keys := DigitsToKeys(channel).value;
            && keys != [] && Typed(keys) == channel
            && (forall i :: 0 <= i < |keys| ==> 0x20 <= keys[i] <= 0x29)
            && (keys[0] == NUMBER_0 ==> channel == 0)
            && channel < Power10(|keys|) && (|keys| > 1 ==> channel >= Power10(|keys| - 1))
  {
    var digits := Dec(channel);
    DecIsNumeral(channel);
    KeysAreDigitKeys(digits);
    TypedIsValue(digits);
    DecLength(channel, |digits|);
    if |digits| > 1 { DecLength(channel, |digits| - 1); }
    assert DigitOf(digits[0]) == Some(0) ==> digits[0] == '0';
  }

  /** What `int(str(media_id).strip())` makes of the text. */
  function Channel(mediaId: string): Option<int> {
    ParseInt(Strip(mediaId), 10)
  }

  lemma DecIsPlain(n: nat)
    ensures ArePlainDigits(Dec(n), 10) && !IsSpace(Dec(n)[0]) && !IsSpace(Dec(n)[|Dec(n)| - 1])
    ensures ParseInt(Dec(n), 10) == Some(n)
  {
    var digits := Dec(n);
    DecIsNumeral(n);
    assert digits[0] in digits && digits[|digits| - 1] in digits;
    PlainDigits(digits, 10);
  }

  lemma ChannelOf(left: string, text: string, right: string)
    requires AllSpace(left) && AllSpace(right)
    requires text != "" && !IsSpace(text[0]) && !IsSpace(text[|text| - 1])
    ensures Channel(left + text + right) == ParseInt(text, 10)
  {
    StripIs(left, text, right);
  }

  lemma NegativeIsSigned(n: nat)
    ensures var text := ['-'] + Dec(n);
            ParseInt(text, 10) == Some(-(n as int)) && !IsSpace(text[0]) && !IsSpace(text[|text| - 1])
  {
    var digits, text := Dec(n), ['-'] + Dec(n);
    DecIsPlain(n);
    DecIsNumeral(n);
    assert text[|text| - 1] == digits[|digits| - 1];
    SignedDigits('-', digits, 10);
  }

  /** A decimal number with blanks around it is that channel; with a minus sign it
      is a negative one. */
  lemma ChannelIsDecimal(left: string, n: nat, right: string)
    requires AllSpace(left) && AllSpace(right)
    ensures Channel(left + Dec(n) + right) == Some(n)
    ensures Channel(left + (['-'] + Dec(n)) + right) == Some(-(n as int))
  {
    DecIsPlain(n);
    NegativeIsSigned(n);
    ChannelOf(left, Dec(n), right);
    ChannelOf(left, ['-'] + Dec(n), right);
  }

  lemma StrippedIsChannel(mediaId: string)
    ensures forall n: nat :: Strip(mediaId) == Dec(n) ==> Channel(mediaId) == Some(n)
  {
    forall n: nat | Strip(mediaId) == Dec(n) ensures Channel(mediaId) == Some(n) {
      DecIsPlain(n);
    }
  }

  /** The keys, up to the first one that fails. */
  method SendKeys(keys: seq<byte>, accepts: nat -> bool) returns (sent: seq<byte>)
    ensures sent <= keys && (forall k :: 0 <= k < |sent| ==> accepts(k))
    ensures sent != keys ==> !accepts(|sent|)
  {
    sent := [];
    for k := 0 to |keys|
      invariant sent == keys[..k] && forall i :: 0 <= i < k ==> accepts(i)
    {
      if !accepts(k) {
        return;
      }
      sent := sent + [keys[k]];
    }
  }

  datatype Played = Tuned | NotChannel | NotANumber | Negative | SendFailed

  /** `async_play_media`; `accepts(k)` says whether the backend carries out the
      k-th key.  The keys go out in order, and nothing follows one that failed. */
  method PlayMedia(isChannel: bool, mediaId: string, accepts: nat -> bool) returns (sent: seq<byte>, result: Played)
    ensures !isChannel <==> result.NotChannel?
    ensures isChannel ==> (Channel(mediaId).None? <==> result.NotANumber?)
    ensures isChannel && Channel(mediaId).Some? ==> (Channel(mediaId).value < 0 <==> result.Negative?)
    ensures result.Negative? ==> '-' in mediaId
    ensures forall n: nat :: isChannel && Strip(mediaId) == Dec(n) ==>
              (result.Tuned? || result.SendFailed?) && (result.Tuned? ==> Typed(sent) == n)
    ensures result.NotChannel? || result.NotANumber? || result.Negative? ==> sent == []
    ensures result.Tuned? || result.SendFailed? ==>
              var keys := DigitsToKeys(Channel(mediaId).value).value;
              && sent <= keys && (forall k :: 0 <= k < |sent| ==> accepts(k))
              && (result.Tuned? <==> sent == keys)
              && (result.SendFailed? ==> !accepts(|sent|))
    ensures result.Tuned? ==> Typed(sent) == Channel(mediaId).value
  {
    sent := [];
    if !isChannel {
      return sent, NotChannel;
    }
    var channel := Channel(mediaId);
    StrippedIsChannel(mediaId);
    if channel.None? {
      return sent, NotANumber;
    }
    var codes := DigitsToKeys(channel.value);
    if codes.None? {
      OnlySignedIsNegative(Strip(mediaId), 10);
      StrippedWasThere(mediaId, IsSpace, '-');
      return sent, Negative;
    }
    sent := SendKeys(codes.value, accepts);
    KeysSpellChannel(channel.value);
    result := if sent == codes.value then Tuned else SendFailed;
  }
}
