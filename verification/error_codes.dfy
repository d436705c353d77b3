/** Descriptions of the error codes the CAD host reports when a document fails to open
    (Form1.cs, `GetErrorDescription`). */
module ErrorCodes {
  import opened Wrappers
  import Text

  /** Descriptions of codes 0 to 4, indexed by code. */
  const KnownDescriptions: seq<string> := [
    "Hata yok",
    "Genel hata",
    "Dosya bulunamadı veya erişim reddedildi",
    "Geçersiz dosya türü",
    "Dosya açılamadı"
  ]

  const UnknownCodePrefix := "Bilinmeyen hata kodu: "

  predicate IsKnownCode(code: int) {
    0 <= code < |KnownDescriptions|
  }

  /** The description of `code`: a fixed text for codes 0 to 4, otherwise a message
      that spells out the code in decimal (see `UnknownCodeReadsBack`). */
  function ErrorDescription(code: int): (d: string)
    ensures IsKnownCode(code) <==> d in KnownDescriptions
    ensures !IsKnownCode(code) ==> UnknownCodePrefix <= d
  {
    if IsKnownCode(code) then KnownDescriptions[code]
    else
      var d := UnknownCodePrefix + Text.IntToString(code);
      assert d[0] == 'B';
      assert forall k :: 0 <= k < |KnownDescriptions| ==> KnownDescriptions[k][0] != 'B';
      d
  }

  /** The text after the unknown-code prefix reads back as the code itself. */
  lemma UnknownCodeReadsBack(code: int)
    requires !IsKnownCode(code)
    ensures Text.ParseInt(ErrorDescription(code)[|UnknownCodePrefix|..]) == Some(code)
  {
    assert ErrorDescription(code)[|UnknownCodePrefix|..] == Text.IntToString(code);
    Text.IntToStringRoundTrip(code);
  }

  /** Different codes are described differently, so the description identifies the code. */
  lemma ErrorDescriptionInjective(a: int, b: int)
    requires a != b
    ensures ErrorDescription(a) != ErrorDescription(b)
  {
    if IsKnownCode(a) && IsKnownCode(b) {
      assert forall i, j :: 0 <= i < j < |KnownDescriptions| ==> KnownDescriptions[i] != KnownDescriptions[j];
    } else if !IsKnownCode(a) && !IsKnownCode(b) {
      UnknownCodeReadsBack(a);
      UnknownCodeReadsBack(b);
    }
  }
}
