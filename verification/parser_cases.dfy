/** The example configuration file of the parser's unit test, read through the model. */
module ParserCases {
  import opened Results
  import opened Parser

  /** Four random and two SMA investors, three stocks, and the shared starting portfolio. */
  function MoodleConfig(): Config {
    Config(4, 2, map["APL" := 145, "MSFT" := 300, "GOOGL" := 2700], 100000, map["APL" := 5, "MSFT" := 15, "GOOGL" := 3])
  }

  /** The order the file lists the stocks in. */
  function MoodleKeys(): seq<string> { ["APL", "MSFT", "GOOGL"] }

  /** The three data lines of the file. */
  function MoodleLines(): seq<string> {
    ["R R R R S S", "APL:145 MSFT:300 GOOGL:2700", "100000 APL:5 MSFT:15 GOOGL:3"]
  }

  /** The file, headed by a comment line, parses to the expected counts, prices and portfolio. */
  lemma MoodleFile()
    ensures Parse(["# comment"] + MoodleLines()) == Success(MoodleConfig())
  {
    MoodleRendered();
    MoodleLinesRendered();
    CommentHeadedParse("# comment", MoodleLines());
  }

  /** The configuration satisfies the round trip's conditions. */
  lemma MoodleRendered()
    ensures Parse(Render(MoodleConfig(), MoodleKeys(), MoodleKeys())) == Success(MoodleConfig())
  {
    var c := MoodleConfig();
    var pk := MoodleKeys();
    assert forall k :: k in c.prices ==> Plain(k) && InIntRange(c.prices[k]);
    assert forall k :: k in c.portfolio ==> Plain(k) && InIntRange(c.portfolio[k]);
    ParseRender(c, pk, pk);
  }

  /** Rendering the configuration writes exactly the file's lines. */
  lemma MoodleLinesRendered()
    ensures Render(MoodleConfig(), MoodleKeys(), MoodleKeys()) == MoodleLines()
  {
    MoodleTypes(); MoodlePrices(); MoodlePortfolio();
  }

  lemma MoodleTypes() ensures TypesLine(MoodleConfig()) == "R R R R S S" {
    assert Repeat("R", 4) + Repeat("S", 2) == ["R", "R", "R", "R", "S", "S"];
    assert Join(["R", "R", "R", "R", "S", "S"], ' ') == "R R R R S S";
  }

  lemma MoodlePrices() ensures PricesLine(MoodleConfig(), MoodleKeys()) == "APL:145 MSFT:300 GOOGL:2700" {
    MoodlePricePairs();
    MoodlePricesJoin();
  }

  lemma MoodlePricesJoin() ensures Join(["APL:145", "MSFT:300", "GOOGL:2700"], ' ') == "APL:145 MSFT:300 GOOGL:2700" {
    assert Join(["GOOGL:2700"], ' ') == "GOOGL:2700";
    assert Join(["MSFT:300", "GOOGL:2700"], ' ') == "MSFT:300 GOOGL:2700";
  }

  lemma MoodlePricePairs() ensures RenderPairs(MoodleKeys(), MoodleConfig().prices) == ["APL:145", "MSFT:300", "GOOGL:2700"] {
    MoodleNumbers();
    var r := RenderPairs(MoodleKeys(), MoodleConfig().prices);
    assert r[0] == "APL" + ":" + "145" == "APL:145";
    assert r[1] == "MSFT" + ":" + "300" == "MSFT:300";
    assert r[2] == "GOOGL" + ":" + "2700" == "GOOGL:2700";
  }

  lemma MoodlePortfolio() ensures PortfolioLine(MoodleConfig(), MoodleKeys()) == "100000 APL:5 MSFT:15 GOOGL:3" {
    MoodleHoldingPairs();
    MoodleNumbers();
    MoodlePortfolioJoin();
    assert ["100000"] + ["APL:5", "MSFT:15", "GOOGL:3"] == ["100000", "APL:5", "MSFT:15", "GOOGL:3"];
  }

  lemma MoodlePortfolioJoin() ensures Join(["100000", "APL:5", "MSFT:15", "GOOGL:3"], ' ') == "100000 APL:5 MSFT:15 GOOGL:3" {
  }

  lemma MoodleHoldingPairs() ensures RenderPairs(MoodleKeys(), MoodleConfig().portfolio) == ["APL:5", "MSFT:15", "GOOGL:3"] {
    MoodleNumbers();
    var r := RenderPairs(MoodleKeys(), MoodleConfig().portfolio);
    assert r[0] == "APL" + ":" + "5" == "APL:5";
    assert r[1] == "MSFT" + ":" + "15" == "MSFT:15";
    assert r[2] == "GOOGL" + ":" + "3" == "GOOGL:3";
  }

  lemma MoodleNumbers()
    ensures Show(145) == "145" && Show(300) == "300" && Show(2700) == "2700" && Show(100000) == "100000"
    ensures Show(5) == "5" && Show(15) == "15" && Show(3) == "3"
  {
  }
}
