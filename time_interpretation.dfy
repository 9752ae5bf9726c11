/**
 * The interpretation hook (client/src/hooks/useTimeInterpretation.ts): for
 * a submitted time it labels the time, takes the entry the language's
 * table holds for it, or else builds a templated interpretation, and
 * stamps the label on the result. The tables themselves are parameters.
 */
module TimeInterpretation {
  import opened Wrappers
  import opened Text
  import TimeUtils

  datatype Spiritual = Spiritual(title: string, description: string, guidance: string)
  datatype Angel = Angel(name: string, message: string, guidance: string)
  datatype Numerology = Numerology(title: string, rootNumber: string, mirrorEffect: string, analysis: string)

  /** An interpretation; `kind` is the `type` field. */
  datatype Interpretation = Interpretation(kind: string, spiritual: Spiritual, angel: Angel, numerology: Numerology)

  /** An hours table as the bundled JSON files give it, keyed by the time text. */
  type HoursTable = map<string, Interpretation>

  /** `i18n.language === 'fr' ? frenchHoursData : englishHoursData`. */
  function SelectTable(language: string, english: HoursTable, french: HoursTable): (table: HoursTable)
    ensures language == "fr" ==> table == french
    ensures language != "fr" ==> table == english
  {
    if language == "fr" then french else english
  }

  const EN_REFLECTION_TITLE := "Personal Reflection"
  const FR_REFLECTION_TITLE := "Réflexion Personnelle"
  const EN_REFLECTION_TAIL := " invites you to pause and reflect on your current life situation."
  const FR_REFLECTION_TAIL := " vous invite à faire une pause et à réfléchir sur votre situation de vie actuelle."
  const EN_REFLECTION_GUIDANCE := "Take a moment to consider what thoughts were in your mind as you noticed this time. The universe may be highlighting these areas for attention."
  const FR_REFLECTION_GUIDANCE := "Prenez un moment pour considérer les pensées qui étaient dans votre esprit lorsque vous avez remarqué cette heure. L'univers pourrait mettre en évidence ces domaines pour votre attention."
  const EN_MESSENGER := "Divine Messenger"
  const FR_MESSENGER := "Messager Divin"
  const EN_MESSAGE_TAIL := " carries a message unique to your current spiritual journey."
  const FR_MESSAGE_TAIL := " porte un message unique à votre voyage spirituel actuel."
  const EN_ANGEL_GUIDANCE := "Trust your intuition about what this time means for you personally. Pay attention to recurring thoughts or feelings."
  const FR_ANGEL_GUIDANCE := "Faites confiance à votre intuition sur ce que cette heure signifie pour vous personnellement. Faites attention aux pensées ou sentiments récurrents."
  const EN_ENERGY := "The Energy of "
  const FR_ENERGY := "L'Énergie de "
  const EN_ROOT_NUMBER := "Calculate the sum of all digits to find your personal message."
  const FR_ROOT_NUMBER := "Calculez la somme de tous les chiffres pour trouver votre message personnel."
  const EN_PATTERN := "The pattern in "
  const FR_PATTERN := "Le motif dans "
  const EN_PATTERN_TAIL := " amplifies its energy and significance in your life."
  const FR_PATTERN_TAIL := " amplifie son énergie et sa signification dans votre vie."
  const EN_ANALYSIS := "This number combination has appeared to draw your attention to patterns in your life that need acknowledgment or change."
  const FR_ANALYSIS := "Cette combinaison de nombres est apparue pour attirer votre attention sur des modèles dans votre vie qui nécessitent une reconnaissance ou un changement."
  const EN_THIS := "This "
  const FR_THIS := "Cette "

  /** The generic interpretation for a time the table does not hold, in French or else in English. */
  function Fallback(time: string, kind: string, isFrench: bool): (r: Interpretation)
    ensures r.kind == kind
    ensures r.numerology.title == (if isFrench then FR_ENERGY else EN_ENERGY) + time
    ensures r.spiritual.description ==
      (if isFrench then FR_THIS + ToLower(kind) + FR_REFLECTION_TAIL else EN_THIS + ToLower(kind) + EN_REFLECTION_TAIL)
    ensures r.angel.message ==
      (if isFrench then FR_THIS + ToLower(kind) + FR_MESSAGE_TAIL else EN_THIS + ToLower(kind) + EN_MESSAGE_TAIL)
  {
    var lower := ToLower(kind);
    if isFrench then
      Interpretation(
        kind,
        Spiritual(FR_REFLECTION_TITLE, FR_THIS + lower + FR_REFLECTION_TAIL, FR_REFLECTION_GUIDANCE),
        Angel(FR_MESSENGER, FR_THIS + lower + FR_MESSAGE_TAIL, FR_ANGEL_GUIDANCE),
        Numerology(FR_ENERGY + time, FR_ROOT_NUMBER, FR_PATTERN + time + FR_PATTERN_TAIL, FR_ANALYSIS))
    else
      Interpretation(
        kind,
        Spiritual(EN_REFLECTION_TITLE, EN_THIS + lower + EN_REFLECTION_TAIL, EN_REFLECTION_GUIDANCE),
        Angel(EN_MESSENGER, EN_THIS + lower + EN_MESSAGE_TAIL, EN_ANGEL_GUIDANCE),
        Numerology(EN_ENERGY + time, EN_ROOT_NUMBER, EN_PATTERN + time + EN_PATTERN_TAIL, EN_ANALYSIS))
  }

  /**
   * The lookup-or-fallback choice: the table entry for the time with only
   * its `type` replaced by the label, or the template. Either way the
   * result carries the label.
   */
  function Resolve(time: string, kind: string, language: string, english: HoursTable, french: HoursTable): (r: Interpretation)
    ensures r.kind == kind
    ensures var table := SelectTable(language, english, french);
      && (time in table ==> r == table[time].(kind := kind))
      && (time !in table ==> r == Fallback(time, kind, language == "fr"))
  {
    var table := SelectTable(language, english, french);
    if time in table then table[time].(kind := kind) else Fallback(time, kind, language == "fr")
  }

  /** The labels in lower case, as the template embeds them. */
  lemma LowerCaseLabels()
    ensures ToLower(TimeUtils.MIRROR_HOUR) == "mirror hour"
    ensures ToLower(TimeUtils.REVERSED_HOUR) == "reversed hour"
    ensures ToLower(TimeUtils.REGULAR_HOUR) == "regular hour"
  {
  }

  /** The hook's state: the `interpretation` and `timeType` it returns. */
  class InterpretationHook {
    var interpretation: Option<Interpretation>
    var timeType: string

    /** `useState(null)` and `useState('')`. */
    constructor ()
      ensures interpretation == None && timeType == ""
    {
      interpretation := None;
      timeType := "";
    }

    /**
     * The effect run when `time` or the language changes. A null or empty
     * time clears the state. Otherwise the label is computed first; when
     * that throws (a time without ':'), the effect ends with the TypeError,
     * reported as `threw`, and nothing is set.
     */
    method RunEffect(time: Option<string>, language: string, english: HoursTable, french: HoursTable)
      returns (threw: bool)
      modifies this
      ensures threw <==> time.Some? && time.value != "" && TimeUtils.GetTimeType(time.value).None?
      ensures time.None? || time == Some("") ==> interpretation == None && timeType == ""
      ensures time.Some? && time.value != "" && TimeUtils.GetTimeType(time.value).None? ==>
        interpretation == old(interpretation) && timeType == old(timeType)
      ensures time.Some? && time.value != "" && TimeUtils.GetTimeType(time.value).Some? ==>
        && timeType == TimeUtils.GetTimeType(time.value).value
        && interpretation == Some(Resolve(time.value, timeType, language, english, french))
    {
      if time.None? || time.value == "" {
        interpretation := None;
        timeType := "";
        return false;
      }
      var kind := TimeUtils.GetTimeType(time.value);
      if kind.None? {
        return true;
      }
      threw := false;
      timeType := kind.value;
      interpretation := Some(Resolve(time.value, kind.value, language, english, french));
    }
  }
}
