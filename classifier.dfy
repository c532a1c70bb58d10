/**
 * The column classifier: the names of a table's columns that look like
 * money amounts, chosen by keywords in the lowercased name.
 */
module Classifier {
  import opened Sequences
  import opened Strings

  /** The seven keywords; a column whose lowercased name contains one of them is numeric. */
  const Keywords: seq<string> := ["valor", "fat", "bruto", "l\U{ED}quido", "desconto", "receita", "custo"]

  /** Reference definition: the lowercased name contains one of the keywords. */
  ghost predicate MatchesKeyword(name: string) {
    exists p :: p in Keywords && Contains(Lower(name), p)
  }

  /** Python's `any(p in lowered for p in ps)`, scanning `ps` from the front. */
  function AnyContained(lowered: string, ps: seq<string>): (b: bool)
    ensures b <==> exists p :: p in ps && Contains(lowered, p)
  {
    if ps == [] then false
    else
      var b := Contains(lowered, ps[0]) || AnyContained(lowered, ps[1..]);
      assert b ==> exists p :: p in ps && Contains(lowered, p) by {
        if Contains(lowered, ps[0]) {
          assert ps[0] in ps;
        } else if b {
          var p :| p in ps[1..] && Contains(lowered, p);
          assert p in ps;
        }
      }
      assert (exists p :: p in ps && Contains(lowered, p)) ==> b by {
        if exists p :: p in ps && Contains(lowered, p) {
          var p :| p in ps && Contains(lowered, p);
          assert p == ps[0] || p in ps[1..];
        }
      }
      b
  }

  /** The test the comprehension applies to each column name. */
  predicate IsNumericName(name: string) {
    AnyContained(Lower(name), Keywords)
  }

  /** Every column whose name matches a keyword, in the order of the table. */
  function NumericColumns(cols: seq<string>): (r: seq<string>)
    ensures forall c :: c in r <==> c in cols && MatchesKeyword(c)
  {
    if cols == [] then []
    else if IsNumericName(cols[0]) then [cols[0]] + NumericColumns(cols[1..])
    else NumericColumns(cols[1..])
  }

  /** The selection keeps the table's column order: it is a subsequence of the columns. */
  lemma {:induction false} NumericColumnsSubsequence(cols: seq<string>)
    ensures IsSubsequence(NumericColumns(cols), cols)
  {
    if cols != [] {
      NumericColumnsSubsequence(cols[1..]);
      var r := NumericColumns(cols);
      if IsNumericName(cols[0]) {
        assert r[0] == cols[0] && r[1..] == NumericColumns(cols[1..]);
      }
    }
  }

  /** Distinct column names give distinct selected names, so each is normalised once. */
  lemma {:induction false} NumericColumnsDistinct(cols: seq<string>)
    requires Distinct(cols)
    ensures Distinct(NumericColumns(cols))
  {
    if cols != [] {
      assert Distinct(cols[1..]);
      NumericColumnsDistinct(cols[1..]);
      if IsNumericName(cols[0]) {
        var r := NumericColumns(cols);
        assert cols[0] !in cols[1..];
        assert cols[0] !in NumericColumns(cols[1..]);
        forall i, j | 0 <= i < j < |r| ensures r[i] != r[j] {
          if i == 0 {
            assert r[j] == NumericColumns(cols[1..])[j - 1];
          } else {
            assert r[i] == NumericColumns(cols[1..])[i - 1];
            assert r[j] == NumericColumns(cols[1..])[j - 1];
          }
        }
      }
    }
  }

  /** A string without the first letter of `p` does not contain `p`. */
  lemma FirstCharAbsent(s: string, p: string)
    requires |p| > 0 && forall i :: 0 <= i < |s| ==> s[i] != p[0]
    ensures !Contains(s, p)
  {
  }

  /** A name whose lowercased letters include no keyword initial (v, f, b, l, d, r, c) is not numeric. */
  lemma NoKeywordInitial(name: string)
    requires forall i :: 0 <= i < |Lower(name)| ==> Lower(name)[i] !in "vfbldrc"
    ensures !IsNumericName(name)
  {
    forall p | p in Keywords
      ensures !Contains(Lower(name), p)
    {
      FirstCharAbsent(Lower(name), p);
    }
  }

  /** A name shorter than every keyword is not numeric. */
  lemma ShortName(name: string)
    requires |name| < 3
    ensures !IsNumericName(name)
  {
  }

  /** `Valor Bruto` lowers to `valor bruto`, which starts with the keyword `valor`. */
  lemma ValorBrutoNumeric()
    ensures IsNumericName("Valor Bruto")
  {
    assert Lower("Valor Bruto") == "valor bruto";
    assert OccursAt("valor bruto", "valor", 0);
    assert "valor" in Keywords;
  }

  /** `Custo Fixo` lowers to `custo fixo`, which starts with the keyword `custo`. */
  lemma CustoFixoNumeric()
    ensures IsNumericName("Custo Fixo")
  {
    assert Lower("Custo Fixo") == "custo fixo";
    assert OccursAt("custo fixo", "custo", 0);
    assert "custo" in Keywords;
  }

  /** `Nome` holds no first letter of any keyword, so it is not a money column. */
  lemma NomeNotNumeric()
    ensures !IsNumericName("Nome")
  {
    assert Lower("Nome") == "nome";
    NoKeywordInitial("Nome");
  }

  /** Of `ID`, `Valor Bruto`, `Custo Fixo` and `UF` the two money columns are kept, in order. */
  lemma NumericColumnsExample()
    ensures NumericColumns(["ID", "Valor Bruto", "Custo Fixo", "UF"]) == ["Valor Bruto", "Custo Fixo"]
  {
    ShortName("ID");
    ValorBrutoNumeric();
    CustoFixoNumeric();
    ShortName("UF");
    assert ["ID", "Valor Bruto", "Custo Fixo", "UF"][1..] == ["Valor Bruto", "Custo Fixo", "UF"];
    assert ["Valor Bruto", "Custo Fixo", "UF"][1..] == ["Custo Fixo", "UF"];
    assert ["Custo Fixo", "UF"][1..] == ["UF"];
    assert ["UF"][1..] == [];
  }

  /** The accented keyword is found in an upper-case name: `LÍQUIDO` lowers to `líquido`. */
  lemma AccentedKeywordExample()
    ensures IsNumericName("L\U{CD}QUIDO")
  {
    assert Lower("L\U{CD}QUIDO") == "l\U{ED}quido";
    assert OccursAt("l\U{ED}quido", "l\U{ED}quido", 0);
    assert "l\U{ED}quido" in Keywords;
  }
}
