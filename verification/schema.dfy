/** The fixed layout every "Standard Materials" sheet must have, and the
    names the merge adds or looks for. */
module Schema {
  import opened Text

  /** The sheet each upload must contain, matched exactly. */
  const SheetName: string := "Standard Materials"

  /** The 61 column headers a sheet must start with, in this order. The list
      is assembled from three parts only to keep each literal small for the
      verifier. */
  const ExpectedHeaders: seq<string> := ExpectedHeaders1To20 + ExpectedHeaders21To40 + ExpectedHeaders41To61

  /** Headers 1 to 20. */
  const ExpectedHeaders1To20: seq<string> := [
    "Material_ID", "Description", "Buyer_Group", "Technical Text", "Standard_Material_Set",
    "COPIC_Number", "NIIN", "Manufacturing_Part_No", "Part_No", "Maturity", "ITAR",
    "TypeDescription", "MaterialType", "ExternalMaterialStatus", "StandardMaterialCategory",
    "TechnicalResponsibleUser", "MatSpec", "GFX", "NatoStockID", "ProcPack"
  ]

  /** Headers 21 to 40. */
  const ExpectedHeaders21To40: seq<string> := [
    "Weight", "Height", "Width", "Depth", "StandardMaterialClass", "CageCode", "ContPartNo",
    "ContPartName", "ContNo", "ProcClass", "EAR600", "EAR", "NonStdRtl", "Unit", "Certificate",
    "StockShelfLife", "HazardousMaterial", "Equivalentmaterial", "machined", "machiningStrategy"
  ]

  /** Headers 41 to 61. */
  const ExpectedHeaders41To61: seq<string> := [
    "BuildPhaseID", "LockoutLoadout", "hotwork", "UnitBlockBreak", "Flushed",
    "PipeInstallationTestMedium", "PipeInstallationTestPressure", "PipeShopTestMedium",
    "PipeShopTestPressure", "PipeFlushingMedium", "PipeFlushingAcceptanceCriteria",
    "PipeAdditionalTestPressCrit", "PipeAdditionalTestMedium", "AuthoringApplication",
    "Identifier", "Interface", "Inspection_Codes", "CommodityCode", "Min_Order_Qty",
    "Max_Order_Qty", "Supplier_ID"
  ]

  /** Columns that are dropped from the merged sheet when they hold no data. */
  const UnwantedColumns: seq<string> := [
    "ITAR", "TypeDescription", "StandardMaterialClass", "Certificate",
    "StockShelfLife", "AuthoringApplication", "Identifier", "Interface"
  ]

  /** The key column, checked for duplicate values after the merge. */
  const KeyHeader: string := "Material_ID"

  /** The blank sequence-index column put in front of every prepared sheet. */
  const IndexHeader: string := "S.I."

  /** The provenance column naming the uploaded file of each row. */
  const SourceHeader: string := "SourceFile"

  /** The shape of the two constant lists that the rest of the pipeline
      relies on: the key column leads the expected layout and is never a
      pruning candidate, every pruning candidate is an expected header, and
      neither added column is one. */
  lemma ConstantsShape()
    ensures |ExpectedHeaders| == 61 && |UnwantedColumns| == 8
    ensures ExpectedHeaders[0] == KeyHeader
    ensures KeyHeader !in UnwantedColumns
    ensures IndexHeader !in UnwantedColumns && SourceHeader !in UnwantedColumns
    ensures IndexHeader !in ExpectedHeaders && SourceHeader !in ExpectedHeaders
    ensures forall u :: u in UnwantedColumns ==> u in ExpectedHeaders
  {
    ExpectedHeadersParts();
    HeadersBounded();
    assert !WordChar(IndexHeader[|IndexHeader| - 1]);
    SourceHeaderNotExpected();
    assert UnwantedColumns == [
      ExpectedHeaders1To20[10], ExpectedHeaders1To20[11], ExpectedHeaders21To40[4], ExpectedHeaders21To40[14],
      ExpectedHeaders21To40[15], ExpectedHeaders41To61[13], ExpectedHeaders41To61[14], ExpectedHeaders41To61[15]
    ];
    assert UnwantedColumns == [
      ExpectedHeaders[10], ExpectedHeaders[11], ExpectedHeaders[24], ExpectedHeaders[34],
      ExpectedHeaders[35], ExpectedHeaders[53], ExpectedHeaders[54], ExpectedHeaders[55]
    ];
  }

  /** Where each part sits in the expected layout. */
  lemma ExpectedHeadersParts()
    ensures |ExpectedHeaders1To20| == 20 && |ExpectedHeaders21To40| == 20 && |ExpectedHeaders41To61| == 21
    ensures |ExpectedHeaders| == 61
    ensures forall i :: 0 <= i < 20 ==> ExpectedHeaders[i] == ExpectedHeaders1To20[i]
    ensures forall i :: 20 <= i < 40 ==> ExpectedHeaders[i] == ExpectedHeaders21To40[i - 20]
    ensures forall i :: 40 <= i < 61 ==> ExpectedHeaders[i] == ExpectedHeaders41To61[i - 40]
  {
  }

  lemma SourceHeaderNotExpected()
    ensures SourceHeader !in ExpectedHeaders
  {
    ExpectedHeadersParts();
    SourceHeaderNotIn(ExpectedHeaders1To20);
    SourceHeaderNotIn(ExpectedHeaders21To40);
    SourceHeaderNotIn(ExpectedHeaders41To61);
    forall i | 0 <= i < |ExpectedHeaders|
      ensures ExpectedHeaders[i] != SourceHeader
    {
      if i < 20 {
        assert ExpectedHeaders[i] == ExpectedHeaders1To20[i];
      } else if i < 40 {
        assert ExpectedHeaders[i] == ExpectedHeaders21To40[i - 20];
      } else {
        assert ExpectedHeaders[i] == ExpectedHeaders41To61[i - 40];
      }
    }
  }

  /** `SourceFile` is none of `headers`, shown one header at a time. */
  lemma {:induction false} SourceHeaderNotIn(headers: seq<string>)
    requires headers == ExpectedHeaders1To20 || headers == ExpectedHeaders21To40 || headers == ExpectedHeaders41To61
    ensures forall i :: 0 <= i < |headers| ==> headers[i] != SourceHeader
  {
  }

  /** Every expected header starts and ends with a letter or a digit. */
  lemma HeadersBounded()
    ensures forall i :: 0 <= i < |ExpectedHeaders| ==> Bounded(ExpectedHeaders[i])
  {
    ExpectedHeadersParts();
    Headers1To20Bounded();
    Headers21To40Bounded();
    Headers41To61Bounded();
  }

  /** No expected header carries surrounding whitespace, so a header that
      matches after stripping is already in its stripped form. */
  lemma ExpectedHeadersStripped()
    ensures forall i :: 0 <= i < |ExpectedHeaders| ==> Stripped(ExpectedHeaders[i])
  {
    HeadersBounded();
    BoundedAreStripped(ExpectedHeaders);
  }

  /** Headers that start and end with a letter or a digit are stripped. */
  lemma {:induction false} BoundedAreStripped(headers: seq<string>)
    requires forall i :: 0 <= i < |headers| ==> Bounded(headers[i])
    ensures forall i :: 0 <= i < |headers| ==> Stripped(headers[i])
  {
    forall i | 0 <= i < |headers|
      ensures Stripped(headers[i])
    {
      var h := headers[i];
      assert WordChar(h[0]) && WordChar(h[|h| - 1]);
    }
  }

  lemma Headers1To20Bounded()
    ensures forall i :: 0 <= i < |ExpectedHeaders1To20| ==> Bounded(ExpectedHeaders1To20[i])
  {
  }

  lemma Headers21To40Bounded()
    ensures forall i :: 0 <= i < |ExpectedHeaders21To40| ==> Bounded(ExpectedHeaders21To40[i])
  {
  }

  lemma Headers41To61Bounded()
    ensures forall i :: 0 <= i < |ExpectedHeaders41To61| ==> Bounded(ExpectedHeaders41To61[i])
  {
  }

  /** A letter or a digit, which is never whitespace. */
  predicate WordChar(c: char) {
    ('a' <= c <= 'z') || ('A' <= c <= 'Z') || ('0' <= c <= '9')
  }

  /** Non-empty, and starts and ends with a letter or a digit. */
  predicate Bounded(s: string) {
    |s| > 0 && WordChar(s[0]) && WordChar(s[|s| - 1])
  }
}
