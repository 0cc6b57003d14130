/**
 * The wheel and rim-colour part of the bicycle used by the page's own test
 * suite: "Fat Bike Wheels" forbids the rim colour "Red".
 */
module ConfiguratorExamples {
  import opened ShopTypes
  import opened Configurator

  const FatBikeWheels := OfferedValue("Fat Bike Wheels", InStock, [Rule("Rim Color", ["Red"])])
  const RoadWheels := OfferedValue("Road Wheels", InStock, [])
  const Black := OfferedValue("Black", InStock, [])
  const Red := OfferedValue("Red", InStock, [])
  const Blue := OfferedValue("Blue", InStock, [])

  const FatTirePro := Bicycle("fat-tire-pro", [
    CategoryOptions("Wheels", [FatBikeWheels, RoadWheels]),
    CategoryOptions("Rim Color", [Black, Red, Blue])
  ])

  const Wheels := CategoryOptions("Wheels", [FatBikeWheels, RoadWheels])
  const RimColor := CategoryOptions("Rim Color", [Black, Red, Blue])

  lemma FindFatWheels()
    ensures FindOffered(FatTirePro, "Wheels", "Fat Bike Wheels") == Some(FatBikeWheels)
  {
    assert FatTirePro.options[0] == Wheels;
    assert FindGroup(FatTirePro.options, "Wheels") == Some(Wheels);
  }

  lemma FindRed()
    ensures FindOffered(FatTirePro, "Rim Color", "Red") == Some(Red)
  {
    assert FatTirePro.options[1..] == [RimColor];
    assert FindGroup(FatTirePro.options, "Rim Color") == Some(RimColor);
    assert RimColor.values[1..] == [Red, Blue];
    assert FindValue(RimColor.values, "Red") == Some(Red);
  }

  /** With the fat wheels chosen, the rim colour selector offers Black and Blue only. */
  lemma FatWheelsHideRed()
    ensures Offered(FatTirePro, [Pick("Wheels", "Fat Bike Wheels")], "Rim Color", [Black, Red, Blue])
            == [ChoiceFor(Black), ChoiceFor(Blue)]
  {
    var cust := [Pick("Wheels", "Fat Bike Wheels")];
    FindFatWheels();
    assert Forbidden(FatBikeWheels.restrictions, "Rim Color") == ["Red"];
    assert Blocked(FatTirePro, cust, "Rim Color", "Red") by {
      assert ForbidsVia(FatTirePro, cust[0], "Rim Color", "Red");
    }
    assert !ForbidsVia(FatTirePro, cust[0], "Rim Color", "Black");
    assert !ForbidsVia(FatTirePro, cust[0], "Rim Color", "Blue");
    assert !Blocked(FatTirePro, cust, "Rim Color", "Black");
    assert !Blocked(FatTirePro, cust, "Rim Color", "Blue");
    var vs := [Black, Red, Blue];
    assert vs[1..] == [Red, Blue] && vs[1..][1..] == [Blue] && vs[1..][1..][1..] == [];
    assert Offered(FatTirePro, cust, "Rim Color", [Blue]) == [ChoiceFor(Blue)];
    assert Offered(FatTirePro, cust, "Rim Color", [Red, Blue]) == [ChoiceFor(Blue)];
  }

  /** Choosing Red on an empty customization records it with no notice. */
  lemma SelectRedFirst()
    ensures Select(FatTirePro, [], "Rim Color", "Red") == Update([Pick("Rim Color", "Red")], [])
  {
    FindRed();
    assert Assign([], "Rim Color", "Red") == [Pick("Rim Color", "Red")];
  }

  /** Choosing the fat wheels on an empty customization records them; the rim colour is not set, so nothing is cleared. */
  lemma SelectFatWheelsFirst()
    ensures Select(FatTirePro, [], "Wheels", "Fat Bike Wheels") == Update([Pick("Wheels", "Fat Bike Wheels")], [])
  {
    FindFatWheels();
    var chosen := [Pick("Wheels", "Fat Bike Wheels")];
    assert Assign([], "Wheels", "Fat Bike Wheels") == chosen;
    assert Lookup(chosen, "Rim Color") == None;
    assert FatBikeWheels.restrictions[1..] == [];
  }

  /** Choosing the fat wheels while Red is set clears the rim colour with one notice. */
  lemma SelectFatWheelsAfterRed()
    ensures Select(FatTirePro, [Pick("Rim Color", "Red")], "Wheels", "Fat Bike Wheels")
            == Update([Pick("Rim Color", ""), Pick("Wheels", "Fat Bike Wheels")],
                      [RestrictionNotice("Fat Bike Wheels", "Rim Color", "Red")])
  {
    FindFatWheels();
    assert Assign([Pick("Rim Color", "Red")], "Wheels", "Fat Bike Wheels")
           == [Pick("Rim Color", "Red"), Pick("Wheels", "Fat Bike Wheels")];
    ClearRedForFatWheels();
  }

  /** The fat wheels' restriction entry clears a Red rim colour. */
  lemma ClearRedForFatWheels()
    ensures ClearForbidden([Pick("Rim Color", "Red"), Pick("Wheels", "Fat Bike Wheels")], "Fat Bike Wheels", FatBikeWheels.restrictions)
            == Update([Pick("Rim Color", ""), Pick("Wheels", "Fat Bike Wheels")],
                      [RestrictionNotice("Fat Bike Wheels", "Rim Color", "Red")])
  {
    var chosen := [Pick("Rim Color", "Red"), Pick("Wheels", "Fat Bike Wheels")];
    assert Lookup(chosen, "Rim Color") == Some("Red");
    assert Assign(chosen, "Rim Color", "") == [Pick("Rim Color", ""), Pick("Wheels", "Fat Bike Wheels")] by {
      assert chosen[1..] == [Pick("Wheels", "Fat Bike Wheels")];
    }
    assert FatBikeWheels.restrictions[1..] == [];
  }

  /** Choosing Red while the fat wheels are set keeps both: Red's option forbids nothing. */
  lemma SelectRedAfterFatWheels()
    ensures Select(FatTirePro, [Pick("Wheels", "Fat Bike Wheels")], "Rim Color", "Red")
            == Update([Pick("Wheels", "Fat Bike Wheels"), Pick("Rim Color", "Red")], [])
  {
    FindRed();
    var chosen := Assign([Pick("Wheels", "Fat Bike Wheels")], "Rim Color", "Red");
    assert chosen == [Pick("Wheels", "Fat Bike Wheels"), Pick("Rim Color", "Red")];
    assert Red.restrictions == [];
  }

  /**
   * Choosing Red and then the fat wheels clears the rim colour, keeps the
   * wheels, and produces one notice naming both.
   */
  lemma RedThenFatWheels()
    ensures var first := Select(FatTirePro, [], "Rim Color", "Red").customization;
            Select(FatTirePro, first, "Wheels", "Fat Bike Wheels")
            == Update([Pick("Rim Color", ""), Pick("Wheels", "Fat Bike Wheels")],
                      [RestrictionNotice("Fat Bike Wheels", "Rim Color", "Red")])
  {
    SelectRedFirst();
    SelectFatWheelsAfterRed();
  }

  /**
   * Restrictions apply only in the declared direction: choosing Red after the
   * fat wheels keeps both, because Red's own option forbids nothing.
   */
  lemma FatWheelsThenRedKeepsBoth()
    ensures var first := Select(FatTirePro, [], "Wheels", "Fat Bike Wheels").customization;
            Select(FatTirePro, first, "Rim Color", "Red")
            == Update([Pick("Wheels", "Fat Bike Wheels"), Pick("Rim Color", "Red")], [])
  {
    SelectFatWheelsFirst();
    SelectRedAfterFatWheels();
  }
}
