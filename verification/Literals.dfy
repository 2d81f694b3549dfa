/** The fixed texts inside hashed bytes, spelled out: a digest is only comparable
    between the compiler and the loader if both start from these bytes. */
module Literals {
  import opened Wrappers
  import opened ValueTypes
  import opened CanonicalJson
  import opened JsonParser
  import ContractDigest
  import TemplateDigest
  import ToolContracts

  lemma {:induction false} ContractTexts()
    ensures |ContractDigest.CONTRACT_MAGIC| == 22 && Spells(ContractDigest.CONTRACT_MAGIC[..20], "ALLEN-ENTRY-CONTRACT")
    ensures ContractDigest.CONTRACT_MAGIC[20..] == [0, 1]
    ensures |ContractDigest.TYPE_MAGIC| == 18 && Spells(ContractDigest.TYPE_MAGIC[..16], "ALLEN-VALUE-TYPE")
    ensures ContractDigest.TYPE_MAGIC[16..] == [0, 1]
  {
  }

  lemma {:induction false} TemplateTexts(t: ValueType)
    ensures |TemplateDigest.MAGIC| == 27 && Spells(TemplateDigest.MAGIC[..26], "allen-template-resource-v1")
    ensures TemplateDigest.MAGIC[26] == 0 && Spells(TemplateDigest.CONTENT, "content")
    ensures TemplateDigest.ScalarHole(t) ==>
              Spells(TemplateDigest.ScalarName(t),
                     match t case BoolType => "Bool" case IntType => "Int" case FloatType => "Float" case _ => "String")
  {
  }

  lemma {:induction false} ToolTexts()
    ensures Spells(ToolContracts.TOOLS, "tools") && Spells(ToolContracts.EFFECT, "effect")
    ensures Spells(ToolContracts.DIGEST_PREFIX, "sha256:")
    ensures Spells(ToolContracts.NAME, "name") && Spells(ToolContracts.VERSION, "version")
  {
  }

  lemma {:induction false} ToolSchemaTexts()
    ensures Spells(ToolContracts.ERROR_SCHEMA, "error_schema") && Spells(ToolContracts.INPUT_SCHEMA, "input_schema")
    ensures Spells(ToolContracts.OUTPUT_SCHEMA, "output_schema")
    ensures Spells(ToolContracts.VERSION_REQUIREMENT, "version_requirement")
  {
  }

  // ----- hexadecimal digests -----

  /** A hexadecimal digit reads back as its value, and no digit is an upper-case letter. */
  lemma {:induction false} DigitReads(x: nat)
    requires x < 16
    ensures HexValue(HexDigit(x)) == Some(x) && !('A' as int <= HexDigit(x) <= 'Z' as int)
  {
  }

  lemma {:induction false} DigestReads(digest: seq<byte>)
    ensures var text := ToolContracts.DigestText(digest);
            |text| >= 7 && Spells(text[..7], "sha256:") && text[7..] == ToolContracts.LowerHex(digest)
  {
    ToolTexts();
    var text := ToolContracts.DigestText(digest);
    assert text[..7] == ToolContracts.DIGEST_PREFIX;
  }

  /** The hexadecimal text of a digest holds each byte as two lower-case digits, the
      high one first. */
  lemma {:induction false} HexReads(bytes: seq<byte>, i: nat)
    requires i < |bytes|
    ensures var text := ToolContracts.LowerHex(bytes);
            && |text| == 2 * |bytes|
            && HexValue(text[2 * i]) == Some(bytes[i] / 16) && HexValue(text[2 * i + 1]) == Some(bytes[i] % 16)
    decreases |bytes|
  {
    var more := ToolContracts.LowerHex(bytes[1..]);
    if i > 0 {
      HexReads(bytes[1..], i - 1);
      assert ToolContracts.LowerHex(bytes)[2 * i] == more[2 * (i - 1)];
      assert ToolContracts.LowerHex(bytes)[2 * i + 1] == more[2 * (i - 1) + 1];
    } else {
      if |bytes| > 1 {
        HexReads(bytes[1..], 0);
      }
      DigitReads(bytes[0] / 16);
      DigitReads(bytes[0] % 16);
    }
  }
}
