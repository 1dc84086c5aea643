/**
 * `FestaUtils`: the two static renderers that turn a party record into the
 * invitation text and the preferences text. Each renderer is an f-string:
 * fixed template fragments with the record's fields interpolated in order.
 */
module FestaUtils {
  import opened Wrappers
  import opened Text
  import opened DateTime

  /** The party record, read and never changed by the renderers. */
  datatype Festa = Festa(
    nomeAniversariante: string,
    local: string,
    data: Date,
    hora: Time,
    linkGrupo: Option<string>,
    buffet: seq<string>,
    estilosMusicais: seq<string>)

  /** A record whose date and time render in the fixed-width patterns. */
  predicate Renderable(f: Festa) {
    FormattableDate(f.data) && ValidTime(f.hora)
  }

  /** The text shown when there is no group link. */
  const Placeholder: string := "Não informado"

  /** `link or 'Não informado'`: a missing or empty link is falsy in Python. */
  function LinkOrDefault(l: Option<string>): (r: string)
    ensures l.Some? && l.value != "" ==> r == l.value
    ensures l == None || l == Some("") ==> r == Placeholder
    ensures r != ""
  {
    match l
    case Some(v) => if v != "" then v else Placeholder
    case None => Placeholder
  }

  // ---------------------------------------------------------------------
  // The invitation
  // ---------------------------------------------------------------------

  const Rule: string := "================================"

  /** The literal fragments of the invitation template, around its five fields. */
  const ConviteParts: seq<string> := [
    "\n        " + Rule + "\n               CONVITE PARA A FESTA\n        " + Rule + "\n        🎉 Nome do Aniversariante: ",
    "\n        📍 Local: ",
    "\n        📅 Data: ",
    "\n        ⏰ Hora: ",
    "\n        🔗 Link do Grupo: ",
    "\n        " + Rule + "\n        "
  ]

  /** The invitation's fields in template order: name, venue, date, time, link. */
  function ConviteFields(f: Festa): seq<string>
    requires Renderable(f)
  {
    [f.nomeAniversariante, f.local, FormatDate(f.data), FormatTime(f.hora), LinkOrDefault(f.linkGrupo)]
  }

  /** `gerarConvite`: the invitation block for a party. */
  function GerarConvite(f: Festa): (r: string)
    requires Renderable(f)
    ensures |r| == TotalLength(ConviteParts) + TotalLength(ConviteFields(f))
  {
    Interpolate(ConviteParts, ConviteFields(f))
  }

  /**
   * The invitation holds the name, the venue, the DD/MM/YYYY date, the
   * HH:MM time and the link (or the placeholder) verbatim, in that order,
   * each ending before the next begins.
   */
  lemma {:induction false} ConviteFieldsInOrder(f: Festa)
    requires Renderable(f)
    ensures exists pos :: InOrder(GerarConvite(f),
      [f.nomeAniversariante, f.local, FormatDate(f.data), FormatTime(f.hora), LinkOrDefault(f.linkGrupo)], pos)
  {
    assert GerarConvite(f) == Interpolate(ConviteParts, ConviteFields(f));
    InterpolateInOrder(ConviteParts, ConviteFields(f));
  }

  /** The link line: the placeholder when the link is missing or empty, the link itself otherwise. */
  lemma {:induction false} ConviteShowsLink(f: Festa)
    requires Renderable(f)
    ensures f.linkGrupo == None || f.linkGrupo == Some("") ==> Contains(GerarConvite(f), Placeholder)
    ensures f.linkGrupo.Some? && f.linkGrupo.value != "" ==> Contains(GerarConvite(f), f.linkGrupo.value)
  {
    InterpolateAt(ConviteParts, ConviteFields(f), 4);
  }

  // ---------------------------------------------------------------------
  // The preferences
  // ---------------------------------------------------------------------

  /** The separator of `', '.join(...)`. */
  const Sep: string := ", "

  /** The literal fragments of the preferences template, around its two lists. */
  const PreferenciasParts: seq<string> := [
    "\n        " + Rule + "\n           PREFERÊNCIAS DA FESTA\n        " + Rule + "\n        🍴 Buffet: ",
    "\n        🎵 Estilos Musicais: ",
    "\n        " + Rule + "\n        "
  ]

  /** `gerarPreferencias`: the preferences block for a party. */
  function GerarPreferencias(f: Festa): (r: string)
    ensures |r| == TotalLength(PreferenciasParts) + TotalLength([Join(Sep, f.buffet), Join(Sep, f.estilosMusicais)])
  {
    Interpolate(PreferenciasParts, [Join(Sep, f.buffet), Join(Sep, f.estilosMusicais)])
  }

  /**
   * The text opens with the header and the buffet label, followed at once
   * by the buffet items joined by ", " and the music label; right behind
   * that label come the music styles joined the same way and the closing
   * rule, which ends the text.
   */
  lemma {:induction false} PreferenciasLayout(f: Festa)
    ensures var r, p := GerarPreferencias(f), PreferenciasParts;
      var buffet, musica := Join(Sep, f.buffet), Join(Sep, f.estilosMusicais);
      OccursAt(r, p[0] + buffet + p[1], 0)
      && OccursAt(r, p[1] + musica + p[2], |p[0]| + |buffet|)
      && |r| == |p[0]| + |buffet| + |p[1]| + |musica| + |p[2]|
  {
    var vals := [Join(Sep, f.buffet), Join(Sep, f.estilosMusicais)];
    InterpolateFramed(PreferenciasParts, vals, 0);
    InterpolateFramed(PreferenciasParts, vals, 1);
    InterpolateAt(PreferenciasParts, vals, 0);
    InterpolateEnd(PreferenciasParts, vals);
  }

  /**
   * With no buffet items and no music styles both lists render as the empty
   * string: each label is followed directly by the next line.
   */
  lemma {:induction false} PreferenciasEmpty(f: Festa)
    requires f.buffet == [] && f.estilosMusicais == []
    ensures OccursAt(GerarPreferencias(f), PreferenciasParts[0] + PreferenciasParts[1], 0)
    ensures OccursAt(GerarPreferencias(f), PreferenciasParts[1] + PreferenciasParts[2], |PreferenciasParts[0]|)
  {
    PreferenciasLayout(f);
    JoinFew(Sep, "");
    var p := PreferenciasParts;
    assert p[0] + "" + p[1] == p[0] + p[1];
    assert p[1] + "" + p[2] == p[1] + p[2];
  }

  /** An item of either list appears verbatim in the preferences. */
  lemma {:induction false} PreferenciasListsItem(f: Festa, k: nat, i: nat)
    requires k < 2
    requires i < |if k == 0 then f.buffet else f.estilosMusicais|
    ensures Contains(GerarPreferencias(f), (if k == 0 then f.buffet else f.estilosMusicais)[i])
  {
    var xs := if k == 0 then f.buffet else f.estilosMusicais;
    var vals := [Join(Sep, f.buffet), Join(Sep, f.estilosMusicais)];
    assert vals[k] == Join(Sep, xs);
    InterpolateAt(PreferenciasParts, vals, k);
    JoinAt(Sep, xs, i);
    OccursWithin(GerarPreferencias(f), vals[k], xs[i], Slot(PreferenciasParts, vals, k), JoinSlot(Sep, xs, i));
  }

  /** Every buffet item and every music style appears verbatim in the preferences. */
  lemma {:induction false} PreferenciasListsEveryItem(f: Festa)
    ensures forall i :: 0 <= i < |f.buffet| ==> Contains(GerarPreferencias(f), f.buffet[i])
    ensures forall i :: 0 <= i < |f.estilosMusicais| ==> Contains(GerarPreferencias(f), f.estilosMusicais[i])
  {
    forall i | 0 <= i < |f.buffet|
      ensures Contains(GerarPreferencias(f), f.buffet[i])
    {
      PreferenciasListsItem(f, 0, i);
    }
    forall i | 0 <= i < |f.estilosMusicais|
      ensures Contains(GerarPreferencias(f), f.estilosMusicais[i])
    {
      PreferenciasListsItem(f, 1, i);
    }
  }

  // ---------------------------------------------------------------------
  // What each renderer reads
  // ---------------------------------------------------------------------

  /**
   * The invitation is a function of the name, venue, date, time and link
   * and of nothing else: records that agree on those render identically.
   */
  lemma {:induction false} ConviteReadsOnlyItsFields(f: Festa, g: Festa)
    requires Renderable(f) && Renderable(g)
    requires f.nomeAniversariante == g.nomeAniversariante && f.local == g.local
    requires f.data == g.data && f.hora == g.hora && f.linkGrupo == g.linkGrupo
    ensures GerarConvite(f) == GerarConvite(g)
  {
  }

  /**
   * The preferences are a function of the two lists and of nothing else:
   * records that agree on them render identically, whatever their other
   * fields hold.
   */
  lemma {:induction false} PreferenciasReadOnlyTheirFields(f: Festa, g: Festa)
    requires f.buffet == g.buffet && f.estilosMusicais == g.estilosMusicais
    ensures GerarPreferencias(f) == GerarPreferencias(g)
  {
  }

  // ---------------------------------------------------------------------
  // Worked scenarios
  // ---------------------------------------------------------------------

  /**
   * Ana's party at "Salão X" on 10 May 2024 at 15:30 with no group link:
   * the invitation shows each field as expected.
   */
  lemma {:induction false} AnaConvite(f: Festa)
    requires f == Festa("Ana", "Salão X", Date(2024, 5, 10), Time(15, 30), None, ["Salgados"], ["Samba"])
    ensures Renderable(f)
    ensures exists pos :: InOrder(GerarConvite(f), ["Ana", "Salão X", "10/05/2024", "15:30", Placeholder], pos)
  {
    var fields := [f.nomeAniversariante, f.local, FormatDate(f.data), FormatTime(f.hora), LinkOrDefault(f.linkGrupo)];
    DateExample();
    TimeExample();
    assert fields == ["Ana", "Salão X", "10/05/2024", "15:30", Placeholder];
    ConviteFieldsInOrder(f);
    var pos :| InOrder(GerarConvite(f), fields, pos);
  }

  /** The same party's preferences show its single buffet item and music style. */
  lemma {:induction false} AnaPreferencias(f: Festa)
    requires f == Festa("Ana", "Salão X", Date(2024, 5, 10), Time(15, 30), None, ["Salgados"], ["Samba"])
    ensures Contains(GerarPreferencias(f), "Salgados") && Contains(GerarPreferencias(f), "Samba")
  {
    PreferenciasListsEveryItem(f);
    assert f.buffet[0] == "Salgados" && f.estilosMusicais[0] == "Samba";
  }

  /** Two items each: the lists render as "Pizza, Bolo" and "Pop, Rock". */
  lemma {:induction false} PizzaBoloScenario(f: Festa)
    requires f.buffet == ["Pizza", "Bolo"] && f.estilosMusicais == ["Pop", "Rock"]
    ensures Contains(GerarPreferencias(f), "Pizza, Bolo")
    ensures Contains(GerarPreferencias(f), "Pop, Rock")
  {
    JoinSnoc(Sep, ["Pizza"], "Bolo");
    JoinSnoc(Sep, ["Pop"], "Rock");
    JoinFew(Sep, "Pizza");
    JoinFew(Sep, "Pop");
    assert ["Pizza"] + ["Bolo"] == f.buffet && ["Pop"] + ["Rock"] == f.estilosMusicais;
    assert Join(Sep, f.buffet) == "Pizza, Bolo";
    assert Join(Sep, f.estilosMusicais) == "Pop, Rock";
    var vals := [Join(Sep, f.buffet), Join(Sep, f.estilosMusicais)];
    assert vals == ["Pizza, Bolo", "Pop, Rock"];
    InterpolateAt(PreferenciasParts, vals, 0);
    InterpolateAt(PreferenciasParts, vals, 1);
  }
}
