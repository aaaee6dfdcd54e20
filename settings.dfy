// The settings service (app/src/main/cpp/skyline/services/settings/ISettingsServer.cpp):
// the table of language codes and the commands that read it.
//
// A language code is the u64 whose little-endian bytes spell the language's
// tag, padded with NULs. The guest output buffer a list is written to is
// reduced to the codes written.

module Settings {
  import opened Wrappers
  import opened Common

  /** The length of the list before system version 4.0.0. */
  const OldLanguageCodeListSize: nat := 15
  /** The length of the list since system version 4.0.0. */
  const NewLanguageCodeListSize: nat := 17

  /** The language tags in list order. */
  const LanguageNames: seq<string> := ["ja", "en-US", "fr", "de", "it", "es", "zh-CN", "ko", "nl", "pt",
                                       "ru", "zh-TW", "en-GB", "fr-CA", "es-419", "zh-Hans", "zh-Hant"]

  /** Every tag is ASCII without NULs and fits in a u64. */
  lemma NamesAreShortAscii()
    ensures |LanguageNames| == NewLanguageCodeListSize
    ensures forall i :: 0 <= i < |LanguageNames| ==> |LanguageNames[i]| <= 8
    ensures forall i, j :: 0 <= i < |LanguageNames| && 0 <= j < |LanguageNames[i]| ==>
              0 < LanguageNames[i][j] as int < 0x80
  {
  }

  /** The bytes of a tag. */
  function TagBytes(i: nat): (r: seq<u8>)
    requires i < |LanguageNames|
    ensures |r| <= 8 && 0 !in r
  {
    NamesAreShortAscii();
    Ascii(LanguageNames[i])
  }

  /** `LanguageCodeList`: `MakeMagic<u64>` of each tag. */
  function LanguageCodeList(): (r: seq<u64>)
    ensures |r| == NewLanguageCodeListSize
  {
    NamesAreShortAscii();
    seq(NewLanguageCodeListSize, i requires 0 <= i < NewLanguageCodeListSize => CodeOf(i))
  }

  function CodeOf(i: nat): (c: u64)
    requires i < |LanguageNames|
  {
    var s := TagBytes(i);
    MakeMagicIsLittleEndian(s);
    Pow2Monotone(8 * |s|, 64);
    Pow2Value64();
    MakeMagic(s)
  }

  /** The tag a code spells: its eight bytes up to the first NUL. */
  function TagOf(code: u64): (r: seq<u8>)
    ensures |r| <= 8 && 0 !in r
  {
    UntilNul(LeBytes(code, 8))
  }

  /** Every code in the list spells its tag. */
  lemma CodesSpellTags(i: nat)
    requires i < NewLanguageCodeListSize
    ensures TagOf(LanguageCodeList()[i]) == TagBytes(i)
  {
    var s := TagBytes(i);
    MagicBytes(s, 8);
    UntilNulPadded(s, 8 - |s|);
  }

  /** `MakeLanguageCode`: the code at the popped index; an index outside the
      list, a negative one included, throws. */
  function MakeLanguageCode(index: i32): (r: Result<u64>)
    ensures r.Ok? <==> 0 <= index < NewLanguageCodeListSize
    ensures r.Ok? ==> TagOf(r.value) == TagBytes(index)
  {
    if 0 <= index < NewLanguageCodeListSize then
      CodesSpellTags(index);
      Ok(LanguageCodeList()[index])
    else Err("array::at: index out of range")
  }

  /** `GetAvailableLanguageCodes` and `GetAvailableLanguageCodes2`: a request
      without an output buffer throws; otherwise the first 15 codes, or all
      17, are written to the output buffer and their number is pushed. */
  function AvailableLanguageCodes(newList: bool, hasOutputBuffer: bool): (r: Result<(seq<u64>, i32)>)
    ensures r.Ok? <==> hasOutputBuffer
    ensures r.Ok? ==>
              var n := if newList then NewLanguageCodeListSize else OldLanguageCodeListSize;
              r.value.1 == n && r.value.0 == LanguageCodeList()[..n]
    ensures r.Ok? ==> forall i :: 0 <= i < |r.value.0| ==> TagOf(r.value.0[i]) == TagBytes(i)
  {
    if !hasOutputBuffer then Err("vector::at: no output buffer")
    else
      forall i | 0 <= i < (if newList then NewLanguageCodeListSize else OldLanguageCodeListSize) {
        CodesSpellTags(i);
      }
      var n := if newList then NewLanguageCodeListSize else OldLanguageCodeListSize;
      Ok((LanguageCodeList()[..n], n))
  }

  /** No two languages share a code, so a code names one language. */
  lemma CodesAreDistinct(i: nat, j: nat)
    requires i < NewLanguageCodeListSize && j < NewLanguageCodeListSize && i != j
    ensures LanguageCodeList()[i] != LanguageCodeList()[j]
  {
    CodesSpellTags(i);
    CodesSpellTags(j);
    NamesDistinct(i, j);
  }

  /** Length, first and last character tell the tags apart. */
  lemma NamesDistinct(i: nat, j: nat)
    requires i < |LanguageNames| && j < |LanguageNames| && i != j
    ensures LanguageNames[i] != LanguageNames[j]
  {
    var a, b := LanguageNames[i], LanguageNames[j];
    assert (|a|, a[0], a[|a| - 1]) != (|b|, b[0], b[|b| - 1]);
  }
}
