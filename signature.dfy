/**
 * The comparison in `validateWebhookSignature` (src/lib/abacatepay/signature.ts).
 * The HMAC-SHA256 hex digest is the parameter `hmac`. JavaScript's `length`
 * counts UTF-16 code units, while `timingSafeEqual` compares the UTF-8 bytes
 * and throws when the two buffers differ in length.
 */
module Signature {
  import opened Wrappers
  import opened Js

  /** A string has as many UTF-8 bytes as UTF-16 units exactly when it is all ASCII, and never fewer. */
  lemma {:induction false} LengthsAgreeIffAscii(s: string)
    ensures Utf8Length(s) >= Utf16Length(s)
    ensures Utf8Length(s) == Utf16Length(s) <==> !HasNonAscii(s)
  {
    if s != [] {
      LengthsAgreeIffAscii(s[1..]);
      if HasNonAscii(s[1..]) {
        var i :| 0 <= i < |s[1..]| && s[1..][i] as int > 0x7F;
        assert s[i + 1] as int > 0x7F;
      }
      if HasNonAscii(s) && s[0] as int <= 0x7F {
        var i :| 0 <= i < |s| && s[i] as int > 0x7F;
        assert s[1..][i - 1] as int > 0x7F;
      }
    }
  }

  /**
   * `validateWebhookSignature` as written (lines 6-21): `None` is the
   * `RangeError` `timingSafeEqual` throws on buffers of different byte length.
   */
  function ValidateAsWritten(payload: string, secret: string, provided: string,
                             hmac: (string, string) -> string): Option<bool>
  {
    var expected := hmac(payload, secret);
    if Utf16Length(expected) != Utf16Length(provided) then Some(false)
    else if Utf8Length(expected) != Utf8Length(provided) then None
    else Some(expected == provided)
  }

  /**
   * A header as long as the hex digest in UTF-16 units but holding a non-ASCII
   * character gets past the length guard and makes `timingSafeEqual` throw.
   */
  lemma NonAsciiHeaderThrows(payload: string, secret: string, provided: string, hmac: (string, string) -> string)
    requires !HasNonAscii(hmac(payload, secret))
    requires Utf16Length(provided) == Utf16Length(hmac(payload, secret)) && HasNonAscii(provided)
    ensures ValidateAsWritten(payload, secret, provided, hmac) == None
  {
    LengthsAgreeIffAscii(hmac(payload, secret));
    LengthsAgreeIffAscii(provided);
  }

  /** One such input: the digest "ab" against the header "éb". */
  lemma ThrowingExample(payload: string, secret: string, hmac: (string, string) -> string)
    requires hmac(payload, secret) == "ab"
    ensures ValidateAsWritten(payload, secret, "\U{00E9}b", hmac) == None
  {
    assert Utf16Length("ab") == 2 by {
      assert "ab"[1..] == "b";
      assert "b"[1..] == [];
    }
    assert Utf16Length("\U{00E9}b") == 2 by {
      assert "\U{00E9}b"[1..] == "b";
      assert "b"[1..] == [];
    }
    assert Utf8Length("ab") == 2 by {
      assert "ab"[1..] == "b";
      assert "b"[1..] == [];
    }
    assert Utf8Length("\U{00E9}b") == 3 by {
      assert "\U{00E9}b"[1..] == "b";
      assert "b"[1..] == [];
    }
  }

  /** The evidently intended check: compare the byte lengths, so that a mismatch is refused rather than thrown. */
  function ValidateWebhookSignature(payload: string, secret: string, provided: string,
                                    hmac: (string, string) -> string): bool
  {
    var expected := hmac(payload, secret);
    if Utf8Length(expected) != Utf8Length(provided) then false
    else expected == provided
  }

  /** The corrected check accepts exactly the header that equals the digest. */
  lemma ValidIffDigest(payload: string, secret: string, provided: string, hmac: (string, string) -> string)
    ensures ValidateWebhookSignature(payload, secret, provided, hmac) <==> provided == hmac(payload, secret)
  {
  }

  /** Wherever the code as written answers, it answers as the corrected check does. */
  lemma AgreesWhenNoThrow(payload: string, secret: string, provided: string, hmac: (string, string) -> string)
    requires ValidateAsWritten(payload, secret, provided, hmac).Some?
    ensures ValidateAsWritten(payload, secret, provided, hmac).value == ValidateWebhookSignature(payload, secret, provided, hmac)
  {
  }
}
