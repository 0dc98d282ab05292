/** The programme totals and the visibility rule of the student information
    cards (src/components/dashboard/info-cards.tsx). */
module InfoCards {
  import opened Text
  import Importer

  /** The tier test the cards apply, in order, to the lower-cased grade
      level. */
  datatype CardTier = CardLicenciatura | CardMaestria | CardDoctorado | CardOther

  function CardTierOf(gradeLevel: string): (t: CardTier)
    ensures t == CardLicenciatura <==> Contains(ToLower(gradeLevel), "licenciatura")
    ensures t == CardMaestria <==>
      !Contains(ToLower(gradeLevel), "licenciatura") && Contains(ToLower(gradeLevel), "maestria")
    ensures t == CardDoctorado <==>
      !Contains(ToLower(gradeLevel), "licenciatura") && !Contains(ToLower(gradeLevel), "maestria")
      && Contains(ToLower(gradeLevel), "doctorado")
  {
    var g := ToLower(gradeLevel);
    if Contains(g, "licenciatura") then CardLicenciatura
    else if Contains(g, "maestria") then CardMaestria
    else if Contains(g, "doctorado") then CardDoctorado
    else CardOther
  }

  /** `getTotalCredits`. */
  function TotalCredits(gradeLevel: string): (n: nat)
    ensures n == 285 <==> CardTierOf(gradeLevel) == CardLicenciatura
    ensures n == 135 <==> CardTierOf(gradeLevel) == CardMaestria
    ensures n == 123 <==> CardTierOf(gradeLevel) == CardDoctorado
    ensures n == 0 <==> CardTierOf(gradeLevel) == CardOther
  {
    match CardTierOf(gradeLevel)
    case CardLicenciatura => 285
    case CardMaestria => 135
    case CardDoctorado => 123
    case CardOther => 0
  }

  /** `getHorasLectivas`: ten hours per credit, or "N/A". */
  function HorasLectivas(gradeLevel: string): (h: string)
    ensures TotalCredits(gradeLevel) > 0 ==> h == NatToString(10 * TotalCredits(gradeLevel)) + " horas"
    ensures TotalCredits(gradeLevel) == 0 <==> h == "N/A"
  {
    match CardTierOf(gradeLevel)
    case CardLicenciatura => "2850 horas"
    case CardMaestria => "1350 horas"
    case CardDoctorado => "1230 horas"
    case CardOther => "N/A"
  }

  /** "Posdoctorado" contains "doctorado": such a student gets the
      doctoral totals. */
  lemma PosdoctoradoTotals()
    ensures TotalCredits("Posdoctorado") == 123
    ensures HorasLectivas("Posdoctorado") == "1230 horas"
  {
    var g := ToLower("Posdoctorado");
    assert g == "posdoctorado";
    assert "doctorado" <= g[3..];
    assert !Contains(g, "licenciatura") by {
      forall i | 0 <= i <= |g| - 12 ensures !("licenciatura" <= g[i..]) {
        assert g[i] != 'l';
      }
    }
    assert !Contains(g, "maestria") by {
      forall i | 0 <= i <= |g| - 8 ensures !("maestria" <= g[i..]) {
        assert g[i] != 'm';
      }
    }
  }

  /** The tiers whose labels mention none of the three words get no totals:
      Técnico has 0 credits and "N/A" hours. */
  lemma TecnicoHasNoTotals()
    ensures TotalCredits("Técnico") == 0
    ensures HorasLectivas("Técnico") == "N/A"
  {
    var g := ToLower("Técnico");
    assert g == "técnico";
  }

  /** A value an `InfoItem` may receive: text, a number, or nothing. */
  datatype InfoValue = Text(s: string) | Number(x: real) | Missing

  /** `InfoItem` renders nothing for a falsy value ("" , 0, undefined) or
      for "N/A". */
  predicate InfoItemVisible(v: InfoValue) {
    match v
    case Text(s) => s != "" && s != "N/A"
    case Number(x) => x != 0.0
    case Missing => false
  }

  /** An imported text field (defaulted to "N/A" by the uploader) is shown
      exactly when its cell was present, non-empty and not literally "N/A". */
  lemma ImportedFieldVisible(m: map<string, string>, key: string)
    ensures InfoItemVisible(Text(Importer.TextOr(m, key, "N/A"))) <==> key in m && m[key] != "" && m[key] != "N/A"
  {
  }
}
