/** The powers of 16807 modulo 2^31 - 1 that show its order, each found by repeated squaring. */
module LehmerPowers {
  import opened Modular

  /** One step of repeated squaring; the square is an argument so that it is computed where the step is taken. */
  lemma Square(x: nat, n: nat, y: nat, yy: nat, z: nat)
    requires Pow(x, n) == y && yy == y * y && yy % 2147483647 == z
    ensures Pow(x, 2 * n) == z
  {
    PowAdds(x, n, n);
  }

  /** One step with a multiplication. */
  lemma SquareTimes(x: nat, n: nat, y: nat, yy: nat, s: nat, sx: nat, z: nat)
    requires Pow(x, n) == y && yy == y * y && yy % 2147483647 == s && sx == s * x && sx % 2147483647 == z
    ensures Pow(x, 2 * n + 1) == z
  {
    hide Pow;
    Square(x, n, y, yy, s);
    PowNext(x, 2 * n);
  }

  lemma PowFirst(x: nat)
    requires x < M
    ensures Pow(x, 1) == x
  {
    assert Pow(x, 0) == 1;
  }

  lemma PowerOf1549411()
    ensures Pow(16807, 1549411) == 942143378
  {
    hide Pow;
    PowFirst(16807);
    Square(16807, 1, 16807, 16807 * 16807, 282475249);
    SquareTimes(16807, 2, 282475249, 282475249 * 282475249, 984943658, 984943658 * 16807, 1144108930);
    SquareTimes(16807, 5, 1144108930, 1144108930 * 1144108930, 2007237709, 2007237709 * 16807, 823564440);
    SquareTimes(16807, 11, 823564440, 823564440 * 823564440, 1474833169, 1474833169 * 16807, 1264817709);
    SquareTimes(16807, 23, 1264817709, 1264817709 * 1264817709, 156091745, 156091745 * 16807, 1356425228);
    Square(16807, 47, 1356425228, 1356425228 * 1356425228, 1102246882);
    SquareTimes(16807, 94, 1102246882, 1102246882 * 1102246882, 1951894885, 1951894885 * 16807, 537140623);
    Square(16807, 189, 537140623, 537140623 * 537140623, 937673930);
    Square(16807, 378, 937673930, 937673930 * 937673930, 2045329870);
    SquareTimes(16807, 756, 2045329870, 2045329870 * 2045329870, 167963456, 167963456 * 16807, 1168292834);
    Square(16807, 1513, 1168292834, 1168292834 * 1168292834, 1305359608);
    Square(16807, 3026, 1305359608, 1305359608 * 1305359608, 694228013);
    Square(16807, 6052, 694228013, 694228013 * 694228013, 1125223030);
    SquareTimes(16807, 12104, 1125223030, 1125223030 * 1125223030, 364105151, 364105151 * 16807, 1334362554);
    SquareTimes(16807, 24209, 1334362554, 1334362554 * 1334362554, 1705335906, 1705335906 * 16807, 1263819280);
    Square(16807, 48419, 1263819280, 1263819280 * 1263819280, 1183076897);
    Square(16807, 96838, 1183076897, 1183076897 * 1183076897, 2134534878);
    Square(16807, 193676, 2134534878, 2134534878 * 2134534878, 1537908542);
    SquareTimes(16807, 387352, 1537908542, 1537908542 * 1537908542, 923504864, 923504864 * 16807, 1481932379);
    SquareTimes(16807, 774705, 1481932379, 1481932379 * 1481932379, 1997150684, 1997150684 * 16807, 942143378);
  }

  lemma PowerOf1386()
    ensures Pow(16807, 1386) == 1179617774
  {
    hide Pow;
    PowFirst(16807);
    Square(16807, 1, 16807, 16807 * 16807, 282475249);
    SquareTimes(16807, 2, 282475249, 282475249 * 282475249, 984943658, 984943658 * 16807, 1144108930);
    Square(16807, 5, 1144108930, 1144108930 * 1144108930, 2007237709);
    SquareTimes(16807, 10, 2007237709, 2007237709 * 2007237709, 143542612, 143542612 * 16807, 896544303);
    SquareTimes(16807, 21, 896544303, 896544303 * 896544303, 2110010672, 2110010672 * 16807, 1551901393);
    Square(16807, 43, 1551901393, 1551901393 * 1551901393, 1351934195);
    SquareTimes(16807, 86, 1351934195, 1351934195 * 1351934195, 1901915394, 1901915394 * 16807, 197941363);
    Square(16807, 173, 197941363, 197941363 * 197941363, 2028841238);
    SquareTimes(16807, 346, 2028841238, 2028841238 * 2028841238, 346645555, 346645555 * 16807, 2096192221);
    Square(16807, 693, 2096192221, 2096192221 * 2096192221, 1179617774);
  }

  lemma PowerOf77()
    ensures Pow(942143378, 77) == 1074490442
  {
    hide Pow;
    PowFirst(942143378);
    Square(942143378, 1, 942143378, 942143378 * 942143378, 1451889758);
    Square(942143378, 2, 1451889758, 1451889758 * 1451889758, 1501098710);
    SquareTimes(942143378, 4, 1501098710, 1501098710 * 1501098710, 428076767, 428076767 * 942143378, 266474556);
    SquareTimes(942143378, 9, 266474556, 266474556 * 266474556, 1166146077, 1166146077 * 942143378, 492581121);
    Square(942143378, 19, 492581121, 492581121 * 492581121, 47540892);
    SquareTimes(942143378, 38, 47540892, 47540892 * 47540892, 68001338, 68001338 * 942143378, 1074490442);
  }

  lemma PowerOf18()
    ensures Pow(942143378, 18) == 1166146077
  {
    hide Pow;
    PowFirst(942143378);
    Square(942143378, 1, 942143378, 942143378 * 942143378, 1451889758);
    Square(942143378, 2, 1451889758, 1451889758 * 1451889758, 1501098710);
    SquareTimes(942143378, 4, 1501098710, 1501098710 * 1501098710, 428076767, 428076767 * 942143378, 266474556);
    Square(942143378, 9, 266474556, 266474556 * 266474556, 1166146077);
  }

  lemma PowerOf9()
    ensures Pow(1074490442, 9) == 2147483646
  {
    hide Pow;
    PowFirst(1074490442);
    Square(1074490442, 1, 1074490442, 1074490442 * 1074490442, 473297587);
    Square(1074490442, 2, 473297587, 473297587 * 473297587, 309107220);
    SquareTimes(1074490442, 4, 309107220, 309107220 * 309107220, 809695498, 809695498 * 1074490442, 2147483646);
  }

  lemma PowerOf6()
    ensures Pow(1074490442, 6) == 634005911
  {
    hide Pow;
    PowFirst(1074490442);
    SquareTimes(1074490442, 1, 1074490442, 1074490442 * 1074490442, 473297587, 473297587 * 1074490442, 634005912);
    Square(1074490442, 3, 634005912, 634005912 * 634005912, 634005911);
  }

  lemma PowerOf11()
    ensures Pow(1166146077, 11) == 1600955193
  {
    hide Pow;
    PowFirst(1166146077);
    Square(1166146077, 1, 1166146077, 1166146077 * 1166146077, 1297435884);
    SquareTimes(1166146077, 2, 1297435884, 1297435884 * 1297435884, 1385026292, 1385026292 * 1166146077, 400258458);
    SquareTimes(1166146077, 5, 400258458, 400258458 * 400258458, 469006124, 469006124 * 1166146077, 1600955193);
  }

  lemma PowerOf7()
    ensures Pow(1166146077, 7) == 298192073
  {
    hide Pow;
    PowFirst(1166146077);
    SquareTimes(1166146077, 1, 1166146077, 1166146077 * 1166146077, 1297435884, 1297435884 * 1166146077, 414363975);
    SquareTimes(1166146077, 3, 414363975, 414363975 * 414363975, 1447247265, 1447247265 * 1166146077, 298192073);
  }

  lemma PowerOf49981()
    ensures Pow(1179617774, 49981) == 16384
  {
    hide Pow;
    PowFirst(1179617774);
    SquareTimes(1179617774, 1, 1179617774, 1179617774 * 1179617774, 970181005, 970181005 * 1179617774, 2047383381);
    Square(1179617774, 3, 2047383381, 2047383381 * 2047383381, 1193132871);
    Square(1179617774, 6, 1193132871, 1193132871 * 1193132871, 1552828735);
    Square(1179617774, 12, 1552828735, 1552828735 * 1552828735, 1640375542);
    Square(1179617774, 24, 1640375542, 1640375542 * 1640375542, 1754111779);
    SquareTimes(1179617774, 48, 1754111779, 1754111779 * 1754111779, 1960918547, 1960918547 * 1179617774, 1303424915);
    SquareTimes(1179617774, 97, 1303424915, 1303424915 * 1303424915, 2142360969, 2142360969 * 1179617774, 67530881);
    Square(1179617774, 195, 67530881, 67530881 * 67530881, 2141030491);
    Square(1179617774, 390, 2141030491, 2141030491 * 2141030491, 1366961359);
    SquareTimes(1179617774, 780, 1366961359, 1366961359 * 1366961359, 1862329524, 1862329524 * 1179617774, 901671573);
    SquareTimes(1179617774, 1561, 901671573, 901671573 * 901671573, 706512449, 706512449 * 1179617774, 898522581);
    SquareTimes(1179617774, 3123, 898522581, 898522581 * 898522581, 51967814, 51967814 * 1179617774, 836234509);
    SquareTimes(1179617774, 6247, 836234509, 836234509 * 836234509, 348115047, 348115047 * 1179617774, 1980344696);
    Square(1179617774, 12495, 1980344696, 1980344696 * 1980344696, 1736014192);
    SquareTimes(1179617774, 24990, 1736014192, 1736014192 * 1736014192, 2032206776, 2032206776 * 1179617774, 16384);
  }

  lemma PowerOf31()
    ensures Pow(1179617774, 31) == 1730649443
  {
    hide Pow;
    PowFirst(1179617774);
    SquareTimes(1179617774, 1, 1179617774, 1179617774 * 1179617774, 970181005, 970181005 * 1179617774, 2047383381);
    SquareTimes(1179617774, 3, 2047383381, 2047383381 * 2047383381, 1193132871, 1193132871 * 1179617774, 1596326605);
    SquareTimes(1179617774, 7, 1596326605, 1596326605 * 1596326605, 1100894107, 1100894107 * 1179617774, 1353207565);
    SquareTimes(1179617774, 15, 1353207565, 1353207565 * 1353207565, 743196361, 743196361 * 1179617774, 1730649443);
  }

  lemma PowerOf331()
    ensures Pow(1730649443, 331) == 1013763951
  {
    hide Pow;
    PowFirst(1730649443);
    Square(1730649443, 1, 1730649443, 1730649443 * 1730649443, 1376674263);
    SquareTimes(1730649443, 2, 1376674263, 1376674263 * 1376674263, 1233326474, 1233326474 * 1730649443, 1018536654);
    Square(1730649443, 5, 1018536654, 1018536654 * 1018536654, 1268820004);
    Square(1730649443, 10, 1268820004, 1268820004 * 1268820004, 1612600255);
    SquareTimes(1730649443, 20, 1612600255, 1612600255 * 1612600255, 1146547535, 1146547535 * 1730649443, 1682133510);
    Square(1730649443, 41, 1682133510, 1682133510 * 1682133510, 133508022);
    SquareTimes(1730649443, 82, 133508022, 133508022 * 133508022, 642862021, 642862021 * 1730649443, 432825610);
    SquareTimes(1730649443, 165, 432825610, 432825610 * 432825610, 688128574, 688128574 * 1730649443, 1013763951);
  }

  lemma PowerOf151()
    ensures Pow(1730649443, 151) == 759513457
  {
    hide Pow;
    PowFirst(1730649443);
    Square(1730649443, 1, 1730649443, 1730649443 * 1730649443, 1376674263);
    Square(1730649443, 2, 1376674263, 1376674263 * 1376674263, 1233326474);
    SquareTimes(1730649443, 4, 1233326474, 1233326474 * 1233326474, 1386718363, 1386718363 * 1730649443, 2046898715);
    Square(1730649443, 9, 2046898715, 2046898715 * 2046898715, 508483168);
    SquareTimes(1730649443, 18, 508483168, 508483168 * 508483168, 1563543819, 1563543819 * 1730649443, 1800693194);
    SquareTimes(1730649443, 37, 1800693194, 1800693194 * 1800693194, 721966392, 721966392 * 1730649443, 1722962606);
    SquareTimes(1730649443, 75, 1722962606, 1722962606 * 1722962606, 252779128, 252779128 * 1730649443, 759513457);
  }

  lemma PowerOf2()
    ensures Pow(2147483646, 2) == 1
  {
    hide Pow;
    PowFirst(2147483646);
    Square(2147483646, 1, 2147483646, 2147483646 * 2147483646, 1);
  }
}
