/** The logarithm of 0.95, worked out convergent by convergent, and a key prepared with it. */
module EligibilityVector {
  import opened E34
  import opened E34Compare
  import opened E34Exp
  import opened E34Ln
  import opened Eligibility
  import opened Numbers

  /** The quotient of 0.95 by e^-1, less one. */
  const R: int := 15823677370360929735922730340929120

  /** Its continued fraction, reached at depth 39. */
  const FRACTION: int := 9487067056124494665738037617927154

  /** The second half of the way, from depth 20. */
  lemma FractionFromDepth20(r: int, f: Frame)
    requires r == R && f.previous == 9487067056121373228997336995726031
    requires f.aOlder == 179886974927489568525000847124157778630562912399764742
    requires f.bOlder == 189612842265182619520211973641412630595759297223907133
    requires f.aPrev == 4766010056555412425805617684736734747196125878816475438
    requires f.bPrev == 5023691756748175615303919735011744258940207746086670910
    ensures Convergents(r, f, 20, 1000) == FRACTION
  {
    hide Convergents;
    var a20, b20, c20 :=
      128550945731491667289284349457030513988212265100304768123,
      135501251304525554606438605936152478288323466287764633933,
      9487067056125277515244641880813895;
    ConvergentsStep(r, f, 20, 1000, 100, a20, b20, c20);
    var a21, b21, c21 :=
      3740652052386641463866948510093067421793998728974747946249,
      3942896187259352898584317728389400638215583273509589164351,
      9487067056124325065472450714461042;
    ConvergentsStep(r, Frame(f.aPrev, f.bPrev, a20, b20, c20), 21, 1000, 121, a21, b21, c21);
    var a22, b22, c22 :=
      110648196364902551545126296352514232739200284139569546968873,
      116630562122433542844583347171318026141732121713955787745263,
      9487067056124536933688137972990995;
    ConvergentsStep(r, Frame(a20, b20, a21, b21, c21), 22, 1000, 121, a22, b22, c22);
    var a23, b23, c23 :=
      3507905258494784421428433545025524016673802041954219640341358,
      3697565578215467299240076313439833773899336940353746355894839,
      9487067056124485454086432183220520;
    ConvergentsStep(r, Frame(a21, b21, a22, b22, c22), 23, 1000, 144, a23, b23, c23);
    var a24, b24, c24 :=
      112910035059193688812363091085048664042262829021654876067552047,
      119014690621695540613858157836217762276391916192816114465389158,
      9487067056124496949295821939194352;
    ConvergentsStep(r, Frame(a22, b22, a23, b23, c23), 24, 1000, 144, a24, b24, c24);
    var a25, b25, c25 :=
      3873745453389052979464936908024969190544619958015519101636677286,
      4083185488699912170664108355260318597920825985047209959181573789,
      9487067056124494165561484303500253;
    ConvergentsStep(r, Frame(a23, b23, a24, b24, c24), 25, 1000, 169, a25, b25, c25);
    var a26, b26, c26 :=
      134785545477937128553376102608533465131754346519378552849919122310,
      142072934322652050782414515342140313391939413358614559983742941494,
      9487067056124494789168700875915626;
    ConvergentsStep(r, Frame(a24, b24, a25, b25, c25), 26, 1000, 169, a26, b26, c26);
    var a27, b27, c27 :=
      4975414479461125187758644980345277530918419842431665234627236029060,
      5244417953438185328230876608000178148224946077722206391419069145768,
      9487067056124494638585530341620671;
    ConvergentsStep(r, Frame(a25, b25, a26, b26, c26), 27, 1000, 196, a27, b27, c27);
    var a28, b28, c28 :=
      186089958426659989104485173526481312016231726389668447794246930017224,
      196151199655037002586621282935117173045300273878676102865194476363982,
      9487067056124494672412283131278043;
    ConvergentsStep(r, Frame(a26, b26, a27, b27, c27), 28, 1000, 196, a28, b28, c28);
    var a29, b29, c29 :=
      7354109206703139681039714053738515710296115691782951308885265663676276,
      7751720487688133925930544313242074378431530388848053433372022719844795,
      9487067056124494664264312815772522;
    ConvergentsStep(r, Frame(a27, b27, a28, b28, c28), 29, 1000, 225, a29, b29, c29);
    var a30, b30, c30 :=
      294231503347962612273403770092767664603931783124567911943016173194038212,
      310139584349219698267133696902199837034100470479502488456156442521867402,
      9487067056124494666099046962571377;
    ConvergentsStep(r, Frame(a28, b28, a29, b29, c29), 30, 1000, 225, a30, b30, c30);
    var a31, b31, c31 :=
      12394455823826552466291049934941427520468320180583544916716053581937727782,
      13064581235172314564704297676746315190395234699978789098422310338184995569,
      9487067056124494665658062650839806;
    ConvergentsStep(r, Frame(a29, b29, a30, b30, c30), 31, 1000, 256, a31, b31, c31);
    var a32, b32, c32 :=
      528206146344341693716955600391274107708755147957451808165272513800815241361,
      556764428057195629016841078679579729294663648373606618348572481137273103797,
      9487067056124494665757570249202326;
    ConvergentsStep(r, Frame(a30, b30, a31, b31, c31), 32, 1000, 256, a32, b32, c32);
    var a33, b33, c33 :=
      23627046622679126470370797852097561770969410113116506111276386697150390143579,
      24904479416983135305396631544638156990721983263925435236842519783279428636888,
      9487067056124494665733698758927401;
    ConvergentsStep(r, Frame(a31, b31, a32, b32, c32), 33, 1000, 289, a33, b33, c33);
    var a34, b34, c34 :=
      1068497561128330857692394342907133514390566920513382830511424672606553624649672,
      1126267533271569855428299605389003840546466583367589085452247173342223391443574,
      9487067056124494665739095290347108;
    ConvergentsStep(r, Frame(a32, b32, a33, b33, c33), 34, 1000, 289, a34, b34, c34);
    var a35, b35, c35 :=
      50579195320904621439285112638353545333692264133664057097711115422617634730503405,
      53313837692601308202465313239681042260852663916840473208409911150943750291639784,
      9487067056124494665737802867394554;
    ConvergentsStep(r, Frame(a33, b33, a34, b34, c34), 35, 1000, 324, a35, b35, c35);
    var a36, b36, c36 :=
      2419235192850786700976056693045095721012664321955394218554594870514378350748917189,
      2550034882792379123393311673020893543744180064551011150596829152886572773747803014,
      9487067056124494665738095520094732;
    ConvergentsStep(r, Frame(a34, b34, a35, b35, c35), 36, 1000, 324, a36, b36, c36);
    var a37, b37, c37 :=
      120823531477947640770344188314886301352060362392658301287056597610556134264981903370,
      127356042455659149687811251432975462374135164019494223666345796056971326264676720434,
      9487067056124494665738025537901780;
    ConvergentsStep(r, Frame(a35, b35, a36, b36, c36), 37, 1000, 361, a37, b37, c37);
    var a38, b38, c38 :=
      6094068945646402481510051813108317020745761150313267425467035661188644460034873309896,
      6423554202362573306325663476207966759258105270982959611653630325617390510926313516001,
      9487067056124494665738041407754525;
    ConvergentsStep(r, Frame(a36, b36, a37, b37, c37), 38, 1000, 361, a38, b38, c38);
    var a39, b39, c39 :=
      320237661060043760964888954063104969358305975427018567445724696941616490535224941970341,
      337551805173876512177832401238438462039386541685767271946871656918534718755769905969428,
      9487067056124494665738037617927154;
    ConvergentsStep(r, Frame(a37, b37, a38, b38, c38), 39, 1000, 400, a39, b39, c39);
  }

  lemma FractionOfR(r: int)
    requires r == R
    ensures Fraction(r, 1000) == FRACTION
  {
    hide Convergents;
    var a0, b0, c0 :=
      15823677370360929735922730340929120,
      10000000000000000000000000000000000,
      15823677370360929735922730340929120;
    ConvergentsStep(r, FIRST_FRAME, 0, 1000, 1, a0, b0, c0);
    var a1, b1, c1 :=
      31647354740721859471845460681858240,
      35823677370360929735922730340929120,
      8834200468460451330719560783374336;
    ConvergentsStep(r, Frame(0, S, a0, b0, c0), 1, 1000, 1, a1, b1, c1);
    var a2, b2, c2 :=
      119980940774292837244445525905876545,
      123294709481443718943690921363716480,
      9731231881636444800287368128028741;
    ConvergentsStep(r, Frame(a0, b0, a1, b1, c1), 2, 1000, 1, a2, b2, c2);
    var a3, b3, c3 :=
      680234775514189419609055254505920782,
      719923763097171348977782103623506181,
      9448705687776763549219366417816862;
    ConvergentsStep(r, Frame(a1, b1, a2, b2, c2), 3, 1000, 4, a3, b3, c3);
    var a4, b4, c4 :=
      4160589756532864112336257108297309139,
      4380009097208555199813602348064658990,
      9499043641677524620591989156469239;
    ConvergentsStep(r, Frame(a2, b2, a3, b3, c3), 4, 1000, 4, a4, b4, c4);
    var a5, b5, c5 :=
      34650972600649968245785275067861507498,
      36532711805906545150459751363937990939,
      9484916637107585155844629365493766;
    ConvergentsStep(r, Frame(a3, b3, a4, b4, c4), 5, 1000, 9, a5, b5, c5);
    var a6, b6, c6 :=
      301809055184573892590488659177221223983,
      318106048391472434604451130791477927063,
      9487686785922319468303212670272333;
    ConvergentsStep(r, Frame(a4, b4, a5, b5, c5), 6, 1000, 9, a6, b6, c6);
    var a7, b7, c7 :=
      3291761739079633566663540333575495209096,
      3469779339261445033406585486570259621465,
      9486948353840555316459854037361190;
    ConvergentsStep(r, Frame(a5, b5, a6, b6, c6), 7, 1000, 16, a7, b7, c7);
    var a8, b8, c8 :=
      37267022238427350003753915925364735756614,
      39281786020244335215012254473758716343813,
      9487099751325295455085735616426065;
    ConvergentsStep(r, Frame(a6, b6, a7, b7, c7), 8, 1000, 16, a8, b8, c8);
    var a9, b9, c9 :=
      502889661732509342517321182502027793587468,
      530079532229486419223233694480342891034090,
      9487060547638617125744095131205932;
    ConvergentsStep(r, Frame(a7, b7, a8, b8, c8), 9, 1000, 25, a9, b9, c9);
    var a10, b10, c10 :=
      7006039620194953715537063899687707963223516,
      7384830625814102145623929348634440288929892,
      9487068797089180916993408552419129;
    ConvergentsStep(r, Frame(a8, b8, a9, b9, c9), 10, 1000, 25, a10, b10, c10);
    var a11, b11, c11 :=
      112719704978862059859969046131976702314262339,
      118814074504841658658501488401957639199389895,
      9487066700525344410819871180209185;
    ConvergentsStep(r, Frame(a9, b9, a10, b10, c10), 11, 1000, 36, a11, b11, c11);
    var a12, b12, c12 :=
      1864456882863358277835798261481022826144860672,
      1965261606690456185858792515717404814637789503,
      9487067149310186330205559267248670;
    ConvergentsStep(r, Frame(a10, b10, a11, b11, c11), 12, 1000, 36, a12, b12, c12);
    var a13, b13, c13 :=
      34842233559939136901415698628001444971916113921,
      36726032845577324768228475491719661393664725635,
      9487067036736846610419810414658098;
    ConvergentsStep(r, Frame(a11, b11, a12, b12, c12), 13, 1000, 49, a13, b13, c13);
    var a14, b14, c14 :=
      667196067907442198977697523207873693797295648520,
      703269054185531845653200697937243819095252333210,
      9487067061128313102328191871157838;
    ConvergentsStep(r, Frame(a12, b12, a13, b13, c13), 14, 1000, 49, a14, b14, c14);
    var a15, b15, c15 :=
      14203663567896605150504027166155405459653461432048,
      14971606593955351999933458636993362177362989260036,
      9487067055068895038022147889467267;
    ConvergentsStep(r, Frame(a13, b13, a14, b14, c14), 15, 1000, 64, a15, b15, c15);
    var a16, b16, c16 :=
      309030250710823326145096120098569066265163896548477,
      325738448852381686472383658243523681154969149761350,
      9487067056393757497872826062500331;
    ConvergentsStep(r, Frame(a14, b14, a15, b15, c15), 16, 1000, 64, a16, b16, c16);
    var a17, b17, c17 :=
      7383053449976738371692203356753839552539013184996097,
      7782229646258484376495721505990116599879279410901059,
      9487067056067073698914774461265699;
    ConvergentsStep(r, Frame(a15, b15, a16, b16, c16), 17, 1000, 81, a17, b17, c17);
    var a18, b18, c18 :=
      179886974927489568525000847124157778630562912399764742,
      189612842265182619520211973641412630595759297223907133,
      9487067056139005562393084487432097;
    ConvergentsStep(r, Frame(a16, b16, a17, b17, c17), 18, 1000, 81, a18, b18, c18);
    var a19, b19, c19 :=
      4766010056555412425805617684736734747196125878816475438,
      5023691756748175615303919735011744258940207746086670910,
      9487067056121373228997336995726031;
    ConvergentsStep(r, Frame(a17, b17, a18, b18, c18), 19, 1000, 100, a19, b19, c19);
    FractionFromDepth20(r, Frame(a18, b18, a19, b19, c19));
  }

  /** The logarithm of one minus a coefficient of one twentieth, to the last digit. */
  lemma LnOfNineteenTwentieths(v: int)
    requires v == S - Div(1, 20)
    ensures LnOf(v) == Ok(-512932943875505334261962382072846)
  {
    InversePowers();
    FirstPowerLeast();
    hide PowNat, LowerExponent, AtLeast, Fraction, PowE;
    assert v == 9500000000000000000000000000000000;
    var lower := LowerExponent(v);
    ExponentAtLeast(v, 1);
    BisectionResult(v);
    assert lower == -1;
    assert Remainder(v, -1) == R;
    FractionOfR(R);
  }

  /** A third of the stake at that coefficient, prepared to the last digit. */
  lemma ThirdOfTheStake(key: Key)
    requires key == Key(1, 3, 1, 20, CPraos)
    ensures key.Valid() && Prepare(key) == Ready(State(CPraos, TWO_TO_256, 3333333333333333333333333333333333,
                                                       -512932943875505334261962382072846,
                                                       170977647958501778087320794024282, false))
  {
    hide LnOf;
    LnOfNineteenTwentieths(S - Div(1, 20));
    assert Div(1, 3) == 3333333333333333333333333333333333;
    assert Mul(Div(1, 3), -512932943875505334261962382072846) == -170977647958501778087320794024282;
  }

  const X: int := 170977647958501778087320794024282

  /** The last natural elected there. */
  const LAST_ELECTED: int := 1962956998846591905535085628410160294139768371758753777856225283307809972526

  lemma TermsAtX(x: int)
    requires x == X
    ensures Term(x, 1) == 170977647958501778087320794024282 && Term(x, 2) == 1461667805071068362204909919472
    ensures Term(x, 3) == 8330417446923904215984988824 && Term(x, 4) == 35607879539687911649717366
    ensures Term(x, 5) == 121763029849709962018451 && Term(x, 6) == 346979274200070892577
    ensures Term(x, 7) == 847510002758231138 && Term(x, 8) == 1811315836161321
    ensures Term(x, 9) == 3441050237520 && Term(x, 10) == 5883426761
    ensures Term(x, 11) == 9144858 && Term(x, 12) == 13029
    ensures Term(x, 13) == 17 && Term(x, 14) == 0
  {
    assert Term(x, 1) == 170977647958501778087320794024282;
    assert Term(x, 2) == 1461667805071068362204909919472;
    assert Term(x, 3) == 8330417446923904215984988824;
    assert Term(x, 4) == 35607879539687911649717366;
    assert Term(x, 5) == 121763029849709962018451;
    assert Term(x, 6) == 346979274200070892577;
    assert Term(x, 7) == 847510002758231138;
    assert Term(x, 8) == 1811315836161321;
    assert Term(x, 9) == 3441050237520;
    assert Term(x, 10) == 5883426761;
    assert Term(x, 11) == 9144858;
    assert Term(x, 12) == 13029;
    assert Term(x, 13) == 17;
    assert Term(x, 14) == 0;
  }

  lemma SeriesAtX(x: int)
    requires x == X
    ensures Sum(x, 13) == 10172447681911010168490328908775616 && Term(x, 14) == 0
  {
    hide Term;
    TermsAtX(x);
    assert Sum(x, 0) == S;
    assert Sum(x, 1) == 10170977647958501778087320794024282;
    assert Sum(x, 2) == 10172439315763572846449525703943754;
    assert Sum(x, 3) == 10172447646181019770353741688932578;
    assert Sum(x, 4) == 10172447681788899310041653338649944;
    assert Sum(x, 5) == 10172447681910662339891363300668395;
    assert Sum(x, 6) == 10172447681911009319165563371560972;
    assert Sum(x, 7) == 10172447681911010166675566129792110;
    assert Sum(x, 8) == 10172447681911010168486881965953431;
    assert Sum(x, 9) == 10172447681911010168490323016190951;
    assert Sum(x, 10) == 10172447681911010168490328899617712;
    assert Sum(x, 11) == 10172447681911010168490328908762570;
    assert Sum(x, 12) == 10172447681911010168490328908775599;
    assert Sum(x, 13) == 10172447681911010168490328908775616;
  }

  /** With x as prepared for that key the naturals up to the last elected one are elected and no others. */
  lemma ElectedUpTo(state: State, v: int)
    requires state == State(CPraos, TWO_TO_256, state.sigma, state.c, X, false) && 0 <= v <= TWO_TO_256
    ensures Elected(state, v) <==> v <= LAST_ELECTED
  {
    hide Decide, Term, Sum, Covers;
    SeriesAtX(X);
    CoversSmall(X);
    var at := if v <= LAST_ELECTED then LAST_ELECTED else LAST_ELECTED + 1;
    var q := Quotient(TWO_TO_256, at);
    assert q == 10172447681911010168490328908775616 - if v <= LAST_ELECTED then 1 else 0;
    CompareExact(q, X);
    if v <= LAST_ELECTED {
      ExceededBy(q, X, 13);
      Monotone(state, v, at);
    } else {
      forall k | k >= 1 ensures Sum(X, k) <= q {
        if k <= 13 { SumMonotone(X, k, 13); } else { SumMonotone(X, 13, 14); SumSettles(X, 14, k); LastSum(X); }
      }
      if Elected(state, v) { Monotone(state, at, v); }
    }
  }

  /** That key elects exactly the naturals up to the last elected one. */
  lemma ThirdOfTheStakeElects(key: Key, v: int)
    requires key == Key(1, 3, 1, 20, CPraos) && 0 <= v <= TWO_TO_256
    ensures key.Valid() && Prepare(key).Ready? && Prepare(key).state.maximum == TWO_TO_256
    ensures Elected(Prepare(key).state, v) <==> v <= LAST_ELECTED
  {
    ThirdOfTheStake(key);
    hide Prepare, Elected;
    ElectedUpTo(Prepare(key).state, v);
  }

  lemma LastSum(x: int)
    requires Term(x, 14) == 0
    ensures Sum(x, 14) == Sum(x, 13)
  {
  }
}
