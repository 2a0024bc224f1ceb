/** The synonym rules of the repository, and the proof that they are written as the expansion needs them. */
module SynonymTable {
  import opened Strings
  import opened Expander

  /** A rule whose expansion is given by its words. */
  datatype Entry = Entry(pattern: seq<string>, antiPatterns: seq<string>, words: seq<string>)

  /** A word in lower-case Latin letters, and no or. */
  predicate IsPlain(w: string) {
    w != "" && w != "or" && forall i :: 0 <= i < |w| ==> 'a' <= w[i] <= 'z' || '\U{E0}' <= w[i] <= '\U{FF}'
  }

  predicate ArePlain(words: seq<string>) {
    words != [] && forall i :: 0 <= i < |words| ==> IsPlain(words[i])
  }

  type PlainEntry = e: Entry | ArePlain(e.words) witness Entry([], [], ["a"])

  const E1: PlainEntry := Entry(["cras"], [], ["centro", "referência", "assistência", "social"])
  const E2: PlainEntry := Entry(["creas"], [], ["centro", "referência", "especializado", "assistência", "social"])
  const E3: PlainEntry := Entry(["caps"], [], ["centro", "atenção", "psicossocial", "saúde", "mental"])
  const E4: PlainEntry := Entry(["suas"], [], ["sistema", "único", "assistência", "social"])
  const E5: PlainEntry := Entry(["cad unico"], [], ["cadastro", "único", "benefício"])
  const E6: PlainEntry := Entry(["cadunico"], [], ["cadastro", "único", "benefício"])
  const E7: PlainEntry := Entry(["cadúnico"], [], ["cadastro", "único", "benefício"])
  const E8: PlainEntry := Entry(["bolsa familia"], [], ["transferência", "renda", "benefício", "assistência"])
  const E9: PlainEntry := Entry(["bpc"], ["banco"], ["benefício", "prestação", "continuada", "loas", "assistência"])
  const E10: PlainEntry := Entry(["loas"], [], ["benefício", "prestação", "continuada", "assistência", "social"])
  const E11: PlainEntry := Entry(["auxilio brasil"], [], ["transferência", "renda", "benefício", "social"])
  const E12: PlainEntry := Entry(["ubs"], [], ["unidade", "básica", "saúde", "posto", "médico"])
  const E13: PlainEntry := Entry(["upa"], [], ["unidade", "pronto", "atendimento", "urgência", "emergência"])
  const E14: PlainEntry := Entry(["sus"], [], ["sistema", "único", "saúde", "cartão"])
  const E15: PlainEntry := Entry(["sms"], ["mensagem", "telefone"], ["secretaria", "saúde"])
  const E16: PlainEntry := Entry(["vacina", "cachorro"], [], ["vacinação", "animal", "pet"])
  const E17: PlainEntry := Entry(["vacina", "gato"], [], ["vacinação", "animal", "pet"])
  const E18: PlainEntry := Entry(["vacina", "animal"], [], ["vacinação", "animal", "pet"])
  const E19: PlainEntry := Entry(["vacina", "pet"], [], ["vacinação", "animal", "pet"])
  const E20: PlainEntry := Entry(["vacina"], ["animal", "cachorro", "gato", "pet"], ["vacinação", "imunização"])
  const E21: PlainEntry := Entry(["rg"], ["endereço", "bairro"], ["registro", "geral", "identidade", "documento"])
  const E22: PlainEntry := Entry(["cpf"], [], ["cadastro", "pessoa", "física", "documento"])
  const E23: PlainEntry := Entry(["ctps"], [], ["carteira", "trabalho", "previdência", "social", "emprego"])
  const E24: PlainEntry := Entry(["segunda via"], [], ["reemissão", "documento", "substituição"])
  const E25: PlainEntry := Entry(["iptu"], [], ["imposto", "predial", "territorial", "urbano", "imóvel"])
  const E26: PlainEntry := Entry(["habite-se"], [], ["habite", "se", "alvará", "construção", "regularização"])
  const E27: PlainEntry := Entry(["itbi"], [], ["imposto", "transmissão", "bens", "imóveis", "transferência"])
  const E28: PlainEntry := Entry(["riocard"], [], ["cartão", "passagem", "transporte", "público", "ônibus"])
  const E29: PlainEntry := Entry(["bilhete unico"], [], ["passagem", "ônibus", "metrô", "transporte"])
  const E30: PlainEntry := Entry(["cartao idoso"], [], ["passe", "livre", "gratuidade", "idoso", "transporte"])
  const E31: PlainEntry := Entry(["sine"], [], ["sistema", "nacional", "emprego", "vaga", "trabalho"])
  const E32: PlainEntry := Entry(["mei"], ["meio"], ["microempreendedor", "individual", "empresa"])
  const E33: PlainEntry := Entry(["cnpj"], [], ["cadastro", "nacional", "pessoa", "jurídica", "empresa"])
  const E34: PlainEntry := Entry(["seguro desemprego"], [], ["benefício", "desempregado", "seguro"])
  const E35: PlainEntry := Entry(["creche"], [], ["educação", "infantil", "berçário", "criança"])
  const E36: PlainEntry := Entry(["ciep"], [], ["escola", "pública", "educação", "ensino"])
  const E37: PlainEntry := Entry(["sisbicho"], [], ["cadastro", "animal", "pet", "registro"])
  const E38: PlainEntry := Entry(["nota carioca"], [], ["nota", "fiscal", "eletrônica", "imposto"])
  const E39: PlainEntry := Entry(["alvara"], [], ["alvará", "funcionamento", "licença", "comercial"])
  const E40: PlainEntry := Entry(["esic"], [], ["acesso", "informação", "transparência", "ouvidoria"])
  const E41: PlainEntry := Entry(["156"], [], ["central", "atendimento", "prefeitura", "solicitação"])

  const ENTRIES: seq<PlainEntry> := [
    E1, E2, E3, E4, E5, E6, E7, E8, E9, E10, E11, E12, E13, E14,
    E15, E16, E17, E18, E19, E20, E21, E22, E23, E24, E25, E26, E27, E28,
    E29, E30, E31, E32, E33, E34, E35, E36, E37, E38, E39, E40, E41]

  function RuleOf(e: Entry): Rule {
    Rule(e.pattern, e.antiPatterns, Join(e.words, " "))
  }

  /** `synonymRules`, in order. */
  const SYNONYM_RULES: seq<Rule> := seq(|ENTRIES|, i requires 0 <= i < |ENTRIES| => RuleOf(ENTRIES[i]))

  lemma CleanOf(e: Entry)
    requires ArePlain(e.words)
    ensures IsClean(RuleOf(e).expansion)
  {
    forall i | 0 <= i < |e.words|
      ensures IsWord(e.words[i]) && !IsOr(e.words[i])
    {
      assert IsPlain(e.words[i]) && e.words[i] != "or";
    }
    FieldsOfJoin(e.words);
  }

  /** No expansion of the table has a stray space or an OR of its own. */
  lemma TableIsClean()
    ensures AreClean(SYNONYM_RULES)
  {
    forall i | 0 <= i < |ENTRIES|
      ensures IsClean(SYNONYM_RULES[i].expansion)
    {
      CleanOf(ENTRIES[i]);
    }
  }

  /** `Expand` with its own table: idempotent on every string, and the query keeps its branches unless an or ends it. */
  lemma ExpandOfTheTable(u: Unicode, query: string)
    requires u.fold("") == ""
    ensures Expanded(u, SYNONYM_RULES, Expanded(u, SYNONYM_RULES, query)) == Expanded(u, SYNONYM_RULES, query)
    ensures var expanded := Fields(Expanded(u, SYNONYM_RULES, query));
            Branches(expanded) == Branches(Fields(query)) + Expanding(u, SYNONYM_RULES, query)
            <==> QueryExpansions(u, SYNONYM_RULES, query) == [] || !Dangles(Fields(query), [])
  {
    TableIsClean();
    ExpandIsIdempotent(u, SYNONYM_RULES, query);
    ExpandedReadsAsBranches(u, SYNONYM_RULES, query);
  }
}
