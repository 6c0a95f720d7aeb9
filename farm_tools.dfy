/** The two farm tools the chat agent may call: a stock lookup and a
    training-academy schedule lookup. Each lower-cases its one argument,
    tests fixed keywords as substrings in a fixed order, and answers with
    a canned reply; neither can fail. */
module FarmTools {
  import opened PyStr

  const CombKeyword := "comb"
  const MoringaKeyword := "moringa"
  const BasicKeyword := "basic"
  const CommercialKeyword := "commercial"

  const CombHoneyInStock := "We have 10 jars of raw Comb Honey in stock."
  const MoringaHoneyInStock := "We have 25 jars of Moringa Honey in stock."
  const NotFoundOpening := "Let me check the hives! I don't see "
  const NotFoundClosing := " in our current inventory."

  const BasicCourseSchedule := "The next 1-Day Basic Beekeeping course is on March 15th. It costs ₹1,500."
  const CommercialCourseSchedule := "The next 3-Month Commercial Apiculture training starts on April 1st. It costs ₹15,000."
  const SpecifyCourse := "Please specify if you are interested in Basic Beekeeping or Commercial Apiculture."

  /** The fallback stock reply, with the product name embedded as given:
      the fixed opening, the name unchanged, then the fixed closing. */
  function NotInInventory(productName: string): (reply: string)
    ensures |reply| == |NotFoundOpening| + |productName| + |NotFoundClosing|
    ensures reply[..|NotFoundOpening|] == NotFoundOpening
    ensures reply[|NotFoundOpening|..|NotFoundOpening| + |productName|] == productName
    ensures reply[|NotFoundOpening| + |productName|..] == NotFoundClosing
  {
    NotFoundOpening + productName + NotFoundClosing
  }

  /** `check_inventory`: "comb" wins over "moringa"; anything else is echoed
      back in the not-found reply. */
  function CheckInventory(productName: string): (reply: string)
    ensures reply == CombHoneyInStock <==> Occurs(CombKeyword, Lower(productName))
    ensures reply == MoringaHoneyInStock <==>
      !Occurs(CombKeyword, Lower(productName)) && Occurs(MoringaKeyword, Lower(productName))
    ensures reply == NotInInventory(productName) <==>
      !Occurs(CombKeyword, Lower(productName)) && !Occurs(MoringaKeyword, Lower(productName))
  {
    if Contains(Lower(productName), CombKeyword) then
      CombHoneyInStock
    else if Contains(Lower(productName), MoringaKeyword) then
      MoringaHoneyInStock
    else
      NotInInventory(productName)
  }

  /** `get_academy_schedule`: "basic" wins over "commercial"; anything else
      gets the same request to choose a course. */
  function GetAcademySchedule(courseType: string): (reply: string)
    ensures reply == BasicCourseSchedule <==> Occurs(BasicKeyword, Lower(courseType))
    ensures reply == CommercialCourseSchedule <==>
      !Occurs(BasicKeyword, Lower(courseType)) && Occurs(CommercialKeyword, Lower(courseType))
    ensures reply == SpecifyCourse <==>
      !Occurs(BasicKeyword, Lower(courseType)) && !Occurs(CommercialKeyword, Lower(courseType))
  {
    if Contains(Lower(courseType), BasicKeyword) then
      BasicCourseSchedule
    else if Contains(Lower(courseType), CommercialKeyword) then
      CommercialCourseSchedule
    else
      SpecifyCourse
  }

  /** The not-found reply carries the product name verbatim: it can be read
      back from between the fixed opening and closing, so distinct names give
      distinct replies. */
  lemma NotInInventoryEchoesName(productName: string, other: string)
    ensures NotInInventory(productName)[|NotFoundOpening|..|NotFoundOpening| + |productName|] == productName
    ensures NotInInventory(productName) == NotInInventory(other) <==> productName == other
  {
  }

  /** A product word in any letter case, with any text around it, selects the
      comb reply. */
  lemma {:induction false} CombAnywhere(before: string, word: string, after: string)
    requires Lower(word) == CombKeyword
    ensures CheckInventory(before + word + after) == CombHoneyInStock
  {
    OccursAnywhere(before, word, after, CombKeyword);
  }

  /** "comb" takes precedence over "moringa", in whichever order they appear. */
  lemma {:induction false} CombBeatsMoringa(a: string, comb: string, b: string, moringa: string, c: string)
    requires Lower(comb) == CombKeyword && Lower(moringa) == MoringaKeyword
    ensures CheckInventory(a + comb + b + moringa + c) == CombHoneyInStock
    ensures CheckInventory(a + moringa + b + comb + c) == CombHoneyInStock
  {
    assert a + comb + b + moringa + c == a + comb + (b + moringa + c);
    OccursAnywhere(a, comb, b + moringa + c, CombKeyword);
    assert a + moringa + b + comb + c == (a + moringa + b) + comb + c;
    OccursAnywhere(a + moringa + b, comb, c, CombKeyword);
  }

  /** A course word in any letter case, with any text around it, selects the
      basic-course reply. */
  lemma {:induction false} BasicAnywhere(before: string, word: string, after: string)
    requires Lower(word) == BasicKeyword
    ensures GetAcademySchedule(before + word + after) == BasicCourseSchedule
  {
    OccursAnywhere(before, word, after, BasicKeyword);
  }

  /** "basic" takes precedence over "commercial", in whichever order they appear. */
  lemma {:induction false} BasicBeatsCommercial(a: string, basic: string, b: string, commercial: string, c: string)
    requires Lower(basic) == BasicKeyword && Lower(commercial) == CommercialKeyword
    ensures GetAcademySchedule(a + basic + b + commercial + c) == BasicCourseSchedule
    ensures GetAcademySchedule(a + commercial + b + basic + c) == BasicCourseSchedule
  {
    assert a + basic + b + commercial + c == a + basic + (b + commercial + c);
    OccursAnywhere(a, basic, b + commercial + c, BasicKeyword);
    assert a + commercial + b + basic + c == (a + commercial + b) + basic + c;
    OccursAnywhere(a + commercial + b, basic, c, BasicKeyword);
  }

  /** Inputs that differ only in letter case select the same stock branch. */
  lemma InventoryIgnoresCase(productName: string, other: string)
    requires EqualIgnoringCase(productName, other)
    ensures CheckInventory(productName) == CombHoneyInStock <==> CheckInventory(other) == CombHoneyInStock
    ensures CheckInventory(productName) == MoringaHoneyInStock <==> CheckInventory(other) == MoringaHoneyInStock
    ensures CheckInventory(productName) == NotInInventory(productName) <==>
      CheckInventory(other) == NotInInventory(other)
  {
    EqualIgnoringCaseLower(productName, other);
  }

  /** Inputs that differ only in letter case get the same schedule reply. */
  lemma ScheduleIgnoresCase(courseType: string, other: string)
    requires EqualIgnoringCase(courseType, other)
    ensures GetAcademySchedule(courseType) == GetAcademySchedule(other)
  {
    EqualIgnoringCaseLower(courseType, other);
  }

  /** The disambiguation prompt does not depend on the input: any two inputs
      that mention neither course get the identical reply. This follows from
      the third postcondition of `GetAcademySchedule`; it is kept as a named
      statement of that property. */
  lemma SpecifyCourseIgnoresInput(courseType: string, other: string)
    requires !Occurs(BasicKeyword, Lower(courseType)) && !Occurs(CommercialKeyword, Lower(courseType))
    requires !Occurs(BasicKeyword, Lower(other)) && !Occurs(CommercialKeyword, Lower(other))
    ensures GetAcademySchedule(courseType) == GetAcademySchedule(other) == SpecifyCourse
  {
  }
}
