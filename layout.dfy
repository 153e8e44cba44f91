/**
 * The page arithmetic of the report: horizontal centering of a block on an
 * A4 page, the placement of the watermark, and the download file name.
 * Drawing itself (the PDF library and the image library) is not modelled.
 */
module Layout {
  import opened Wrappers

  /** Width of an A4 page in portrait, in millimetres. */
  const PageWidth: real := 210.0

  /** Default left and right margin, in millimetres. */
  const DefaultMargin: real := 15.0

  /**
   * `centralizar_x`: the left edge of a block of width `larguraTotal` placed
   * so that its gap to the left margin equals its gap to the right margin.
   */
  function CentralizarX(larguraTotal: real, margem: real := DefaultMargin): (x: real)
    ensures x - margem == (PageWidth - margem) - (x + larguraTotal)
    ensures x >= margem <==> larguraTotal <= PageWidth - 2.0 * margem
  {
    var larguraUtil := PageWidth - 2.0 * margem;
    margem + (larguraUtil - larguraTotal) / 2.0
  }

  /** The equal-gap condition has only one solution: `CentralizarX` is the centred position. */
  lemma CentralizarXUnique(larguraTotal: real, margem: real, x: real)
    requires x - margem == (PageWidth - margem) - (x + larguraTotal)
    ensures x == CentralizarX(larguraTotal, margem)
  {
  }

  /** Fraction of the page width the watermark spans. */
  const WatermarkScale: real := 0.6

  /** Where and how large the watermark image is drawn. */
  datatype Placement = Placement(x: real, y: real, width: real, height: real)

  /**
   * The watermark geometry of `colocar_marca_dagua`: scaled to 60% of the
   * page width, aspect ratio kept, centred both ways. An image of width 0
   * makes the aspect-ratio division fail; the exception is swallowed and the
   * page gets no watermark, which is `None` here.
   */
  function WatermarkPlacement(pageW: real, pageH: real, imgW: real, imgH: real): (p: Option<Placement>)
    ensures p.None? <==> imgW == 0.0
    ensures p.Some? ==> p.value.width == pageW * WatermarkScale
    ensures p.Some? ==> p.value.height * imgW == p.value.width * imgH
    ensures p.Some? ==> p.value.x + p.value.width / 2.0 == pageW / 2.0
    ensures p.Some? ==> p.value.y + p.value.height / 2.0 == pageH / 2.0
  {
    if imgW == 0.0 then None
    else
      var novaLargura := pageW * WatermarkScale;
      var ratio := imgH / imgW;
      var novaAltura := novaLargura * ratio;
      assert novaAltura * imgW == novaLargura * imgH by {
        assert ratio * imgW == imgH;
        assert novaAltura * imgW == novaLargura * (ratio * imgW);
      }
      Some(Placement((pageW - novaLargura) / 2.0, (pageH - novaAltura) / 2.0, novaLargura, novaAltura))
  }

  /** `mes_ano.replace('/', '-')`. */
  function ReplaceSlash(s: string): (r: string)
    ensures |r| == |s|
    ensures forall i :: 0 <= i < |s| ==> r[i] == (if s[i] == '/' then '-' else s[i])
    ensures '/' !in r
  {
    if s == [] then [] else [if s[0] == '/' then '-' else s[0]] + ReplaceSlash(s[1..])
  }

  /**
   * The download file name `Prestacao_Contas_{bloco}_{mes_ano}.pdf`, with
   * every `/` of the month turned into `-`.
   */
  function PdfFileName(bloco: string, mesAno: string): (name: string)
    ensures |name| == 17 + |bloco| + 1 + |mesAno| + 4
    ensures name[..17] == "Prestacao_Contas_" && name[|name| - 4..] == ".pdf"
    ensures name[17..17 + |bloco|] == bloco
    ensures name[17 + |bloco|] == '_' && name[18 + |bloco|..|name| - 4] == ReplaceSlash(mesAno)
    ensures '/' !in name[18 + |bloco|..|name| - 4]
  {
    var name := "Prestacao_Contas_" + bloco + "_" + ReplaceSlash(mesAno) + ".pdf";
    assert name[18 + |bloco|..|name| - 4] == ReplaceSlash(mesAno);
    name
  }

  /** The month `nov./25` appears in the file name as `nov.-25`. */
  lemma ReplaceSlashExample()
    ensures ReplaceSlash("nov./25") == "nov.-25"
  {
    assert ReplaceSlash("25") == "25";
    assert ReplaceSlash("/25") == "-25";
  }
}
