/** The coefficient lists of the sample pair of rings, worked out entry by
    entry, and the identity in n and m that they give. */
module SampleIdentity {
  import opened Invariants
  import opened Matcher
  import opened Algebraic
  import opened Expansion
  import opened Samples

  // The first ring, [5, 14, 34, 45, 36, 16].

  lemma FirstRingWindow0Degree1(s: seq<int>)
    requires s == [5, 14, 34, 45, 36, 16]
    ensures WindowCoeffs(s, 0, 1) == [1, 5]
  {
    NextWindowOfOne(s, 0, 1, 1, 5);
  }

  lemma FirstRingWindow0Degree2(s: seq<int>)
    requires s == [5, 14, 34, 45, 36, 16]
    ensures WindowCoeffs(s, 0, 2) == [1, 19, 70]
  {
    FirstRingWindow0Degree1(s);
    NextWindowOfTwo(s, 0, 2, 1, 5, 14);
  }

  lemma FirstRingWindow0Degree3(s: seq<int>)
    requires s == [5, 14, 34, 45, 36, 16]
    ensures WindowCoeffs(s, 0, 3) == [1, 53, 716, 2380]
  {
    FirstRingWindow0Degree2(s);
    NextWindowOfThree(s, 0, 3, 1, 19, 70, 34);
  }

  lemma FirstRingWindow0Degree4(s: seq<int>)
    requires s == [5, 14, 34, 45, 36, 16]
    ensures WindowCoeffs(s, 0, 4) == [1, 98, 3101, 34600, 107100]
  {
    FirstRingWindow0Degree3(s);
    NextWindowOfFour(s, 0, 4, 1, 53, 716, 2380, 45);
  }

  lemma FirstRingWindow0Degree5(s: seq<int>)
    requires s == [5, 14, 34, 45, 36, 16]
    ensures WindowCoeffs(s, 0, 5) == [1, 134, 6629, 146236, 1352700, 3855600]
  {
    FirstRingWindow0Degree4(s);
    NextWindowOfFive(s, 0, 5, 1, 98, 3101, 34600, 107100, 36);
  }

  lemma FirstRingWindow1Degree1(s: seq<int>)
    requires s == [5, 14, 34, 45, 36, 16]
    ensures WindowCoeffs(s, 1, 1) == [1, 14]
  {
    NextWindowOfOne(s, 1, 1, 1, 14);
  }

  lemma FirstRingWindow1Degree2(s: seq<int>)
    requires s == [5, 14, 34, 45, 36, 16]
    ensures WindowCoeffs(s, 1, 2) == [1, 48, 476]
  {
    FirstRingWindow1Degree1(s);
    NextWindowOfTwo(s, 1, 2, 1, 14, 34);
  }

  lemma FirstRingWindow1Degree3(s: seq<int>)
    requires s == [5, 14, 34, 45, 36, 16]
    ensures WindowCoeffs(s, 1, 3) == [1, 93, 2636, 21420]
  {
    FirstRingWindow1Degree2(s);
    NextWindowOfThree(s, 1, 3, 1, 48, 476, 45);
  }

  lemma FirstRingWindow1Degree4(s: seq<int>)
    requires s == [5, 14, 34, 45, 36, 16]
    ensures WindowCoeffs(s, 1, 4) == [1, 129, 5984, 116316, 771120]
  {
    FirstRingWindow1Degree3(s);
    NextWindowOfFour(s, 1, 4, 1, 93, 2636, 21420, 36);
  }

  lemma FirstRingWindow1Degree5(s: seq<int>)
    requires s == [5, 14, 34, 45, 36, 16]
    ensures WindowCoeffs(s, 1, 5) == [1, 145, 8048, 212060, 2632176, 12337920]
  {
    FirstRingWindow1Degree4(s);
    NextWindowOfFive(s, 1, 5, 1, 129, 5984, 116316, 771120, 16);
  }

  lemma FirstRingWindow2Degree1(s: seq<int>)
    requires s == [5, 14, 34, 45, 36, 16]
    ensures WindowCoeffs(s, 2, 1) == [1, 34]
  {
    NextWindowOfOne(s, 2, 1, 1, 34);
  }

  lemma FirstRingWindow2Degree2(s: seq<int>)
    requires s == [5, 14, 34, 45, 36, 16]
    ensures WindowCoeffs(s, 2, 2) == [1, 79, 1530]
  {
    FirstRingWindow2Degree1(s);
    NextWindowOfTwo(s, 2, 2, 1, 34, 45);
  }

  lemma FirstRingWindow2Degree3(s: seq<int>)
    requires s == [5, 14, 34, 45, 36, 16]
    ensures WindowCoeffs(s, 2, 3) == [1, 115, 4374, 55080]
  {
    FirstRingWindow2Degree2(s);
    NextWindowOfThree(s, 2, 3, 1, 79, 1530, 36);
  }

  lemma FirstRingWindow2Degree4(s: seq<int>)
    requires s == [5, 14, 34, 45, 36, 16]
    ensures WindowCoeffs(s, 2, 4) == [1, 131, 6214, 125064, 881280]
  {
    FirstRingWindow2Degree3(s);
    NextWindowOfFour(s, 2, 4, 1, 115, 4374, 55080, 16);
  }

  lemma FirstRingWindow2Degree5(s: seq<int>)
    requires s == [5, 14, 34, 45, 36, 16]
    ensures WindowCoeffs(s, 2, 5) == [1, 136, 6869, 156134, 1506600, 4406400]
  {
    FirstRingWindow2Degree4(s);
    NextWindowOfFive(s, 2, 5, 1, 131, 6214, 125064, 881280, 5);
  }

  lemma FirstRingWindow3Degree1(s: seq<int>)
    requires s == [5, 14, 34, 45, 36, 16]
    ensures WindowCoeffs(s, 3, 1) == [1, 45]
  {
    NextWindowOfOne(s, 3, 1, 1, 45);
  }

  lemma FirstRingWindow3Degree2(s: seq<int>)
    requires s == [5, 14, 34, 45, 36, 16]
    ensures WindowCoeffs(s, 3, 2) == [1, 81, 1620]
  {
    FirstRingWindow3Degree1(s);
    NextWindowOfTwo(s, 3, 2, 1, 45, 36);
  }

  lemma FirstRingWindow3Degree3(s: seq<int>)
    requires s == [5, 14, 34, 45, 36, 16]
    ensures WindowCoeffs(s, 3, 3) == [1, 97, 2916, 25920]
  {
    FirstRingWindow3Degree2(s);
    NextWindowOfThree(s, 3, 3, 1, 81, 1620, 16);
  }

  lemma FirstRingWindow3Degree4(s: seq<int>)
    requires s == [5, 14, 34, 45, 36, 16]
    ensures WindowCoeffs(s, 3, 4) == [1, 102, 3401, 40500, 129600]
  {
    FirstRingWindow3Degree3(s);
    NextWindowOfFour(s, 3, 4, 1, 97, 2916, 25920, 5);
  }

  lemma FirstRingWindow3Degree5(s: seq<int>)
    requires s == [5, 14, 34, 45, 36, 16]
    ensures WindowCoeffs(s, 3, 5) == [1, 116, 4829, 88114, 696600, 1814400]
  {
    FirstRingWindow3Degree4(s);
    NextWindowOfFive(s, 3, 5, 1, 102, 3401, 40500, 129600, 14);
  }

  lemma FirstRingWindow4Degree1(s: seq<int>)
    requires s == [5, 14, 34, 45, 36, 16]
    ensures WindowCoeffs(s, 4, 1) == [1, 36]
  {
    NextWindowOfOne(s, 4, 1, 1, 36);
  }

  lemma FirstRingWindow4Degree2(s: seq<int>)
    requires s == [5, 14, 34, 45, 36, 16]
    ensures WindowCoeffs(s, 4, 2) == [1, 52, 576]
  {
    FirstRingWindow4Degree1(s);
    NextWindowOfTwo(s, 4, 2, 1, 36, 16);
  }

  lemma FirstRingWindow4Degree3(s: seq<int>)
    requires s == [5, 14, 34, 45, 36, 16]
    ensures WindowCoeffs(s, 4, 3) == [1, 57, 836, 2880]
  {
    FirstRingWindow4Degree2(s);
    NextWindowOfThree(s, 4, 3, 1, 52, 576, 5);
  }

  lemma FirstRingWindow4Degree4(s: seq<int>)
    requires s == [5, 14, 34, 45, 36, 16]
    ensures WindowCoeffs(s, 4, 4) == [1, 71, 1634, 14584, 40320]
  {
    FirstRingWindow4Degree3(s);
    NextWindowOfFour(s, 4, 4, 1, 57, 836, 2880, 14);
  }

  lemma FirstRingWindow4Degree5(s: seq<int>)
    requires s == [5, 14, 34, 45, 36, 16]
    ensures WindowCoeffs(s, 4, 5) == [1, 105, 4048, 70140, 536176, 1370880]
  {
    FirstRingWindow4Degree4(s);
    NextWindowOfFive(s, 4, 5, 1, 71, 1634, 14584, 40320, 34);
  }

  lemma FirstRingWindow5Degree1(s: seq<int>)
    requires s == [5, 14, 34, 45, 36, 16]
    ensures WindowCoeffs(s, 5, 1) == [1, 16]
  {
    NextWindowOfOne(s, 5, 1, 1, 16);
  }

  lemma FirstRingWindow5Degree2(s: seq<int>)
    requires s == [5, 14, 34, 45, 36, 16]
    ensures WindowCoeffs(s, 5, 2) == [1, 21, 80]
  {
    FirstRingWindow5Degree1(s);
    NextWindowOfTwo(s, 5, 2, 1, 16, 5);
  }

  lemma FirstRingWindow5Degree3(s: seq<int>)
    requires s == [5, 14, 34, 45, 36, 16]
    ensures WindowCoeffs(s, 5, 3) == [1, 35, 374, 1120]
  {
    FirstRingWindow5Degree2(s);
    NextWindowOfThree(s, 5, 3, 1, 21, 80, 14);
  }

  lemma FirstRingWindow5Degree4(s: seq<int>)
    requires s == [5, 14, 34, 45, 36, 16]
    ensures WindowCoeffs(s, 5, 4) == [1, 69, 1564, 13836, 38080]
  {
    FirstRingWindow5Degree3(s);
    NextWindowOfFour(s, 5, 4, 1, 35, 374, 1120, 34);
  }

  lemma FirstRingWindow5Degree5(s: seq<int>)
    requires s == [5, 14, 34, 45, 36, 16]
    ensures WindowCoeffs(s, 5, 5) == [1, 114, 4669, 84216, 660700, 1713600]
  {
    FirstRingWindow5Degree4(s);
    NextWindowOfFive(s, 5, 5, 1, 69, 1564, 13836, 38080, 45);
  }

  lemma FirstRingCyclicCoeffs1(s: seq<int>)
    requires s == [5, 14, 34, 45, 36, 16]
    ensures CyclicCoeffs(s, 1, 6) == [6, 150]
  {
    CyclicCoeffsFirst(s, 1);
    FirstRingWindow0Degree1(s);
    FirstRingWindow1Degree1(s);
    NextCyclicOfTwo(s, 1, 2, 1, 5, 1, 14);
    FirstRingWindow2Degree1(s);
    NextCyclicOfTwo(s, 1, 3, 2, 19, 1, 34);
    FirstRingWindow3Degree1(s);
    NextCyclicOfTwo(s, 1, 4, 3, 53, 1, 45);
    FirstRingWindow4Degree1(s);
    NextCyclicOfTwo(s, 1, 5, 4, 98, 1, 36);
    FirstRingWindow5Degree1(s);
    NextCyclicOfTwo(s, 1, 6, 5, 134, 1, 16);
  }

  lemma FirstRingCyclicCoeffs2(s: seq<int>)
    requires s == [5, 14, 34, 45, 36, 16]
    ensures CyclicCoeffs(s, 2, 6) == [6, 300, 4352]
  {
    CyclicCoeffsFirst(s, 2);
    FirstRingWindow0Degree2(s);
    FirstRingWindow1Degree2(s);
    NextCyclicOfThree(s, 2, 2, 1, 19, 70, 1, 48, 476);
    FirstRingWindow2Degree2(s);
    NextCyclicOfThree(s, 2, 3, 2, 67, 546, 1, 79, 1530);
    FirstRingWindow3Degree2(s);
    NextCyclicOfThree(s, 2, 4, 3, 146, 2076, 1, 81, 1620);
    FirstRingWindow4Degree2(s);
    NextCyclicOfThree(s, 2, 5, 4, 227, 3696, 1, 52, 576);
    FirstRingWindow5Degree2(s);
    NextCyclicOfThree(s, 2, 6, 5, 279, 4272, 1, 21, 80);
  }

  lemma FirstRingCyclicCoeffs3(s: seq<int>)
    requires s == [5, 14, 34, 45, 36, 16]
    ensures CyclicCoeffs(s, 3, 6) == [6, 450, 11852, 108800]
  {
    CyclicCoeffsFirst(s, 3);
    FirstRingWindow0Degree3(s);
    FirstRingWindow1Degree3(s);
    NextCyclicOfFour(s, 3, 2, 1, 53, 716, 2380, 1, 93, 2636, 21420);
    FirstRingWindow2Degree3(s);
    NextCyclicOfFour(s, 3, 3, 2, 146, 3352, 23800, 1, 115, 4374, 55080);
    FirstRingWindow3Degree3(s);
    NextCyclicOfFour(s, 3, 4, 3, 261, 7726, 78880, 1, 97, 2916, 25920);
    FirstRingWindow4Degree3(s);
    NextCyclicOfFour(s, 3, 5, 4, 358, 10642, 104800, 1, 57, 836, 2880);
    FirstRingWindow5Degree3(s);
    NextCyclicOfFour(s, 3, 6, 5, 415, 11478, 107680, 1, 35, 374, 1120);
  }

  lemma FirstRingCyclicCoeffs4(s: seq<int>)
    requires s == [5, 14, 34, 45, 36, 16]
    ensures CyclicCoeffs(s, 4, 6) == [6, 600, 21898, 344900, 1967500]
  {
    CyclicCoeffsFirst(s, 4);
    FirstRingWindow0Degree4(s);
    FirstRingWindow1Degree4(s);
    NextCyclicOfFive(s, 4, 2, 1, 98, 3101, 34600, 107100, 1, 129, 5984, 116316, 771120);
    FirstRingWindow2Degree4(s);
    NextCyclicOfFive(s, 4, 3, 2, 227, 9085, 150916, 878220, 1, 131, 6214, 125064, 881280);
    FirstRingWindow3Degree4(s);
    NextCyclicOfFive(s, 4, 4, 3, 358, 15299, 275980, 1759500, 1, 102, 3401, 40500, 129600);
    FirstRingWindow4Degree4(s);
    NextCyclicOfFive(s, 4, 5, 4, 460, 18700, 316480, 1889100, 1, 71, 1634, 14584, 40320);
    FirstRingWindow5Degree4(s);
    NextCyclicOfFive(s, 4, 6, 5, 531, 20334, 331064, 1929420, 1, 69, 1564, 13836, 38080);
  }

  lemma FirstRingCyclicCoeffs5(s: seq<int>)
    requires s == [5, 14, 34, 45, 36, 16]
    ensures CyclicCoeffs(s, 5, 6) == [6, 750, 35092, 756900, 7384952, 25498800]
  {
    CyclicCoeffsFirst(s, 5);
    FirstRingWindow0Degree5(s);
    FirstRingWindow1Degree5(s);
    NextCyclicOfSix(s, 5, 2, 1, 134, 6629, 146236, 1352700, 3855600, 1, 145, 8048, 212060, 2632176, 12337920);
    FirstRingWindow2Degree5(s);
    NextCyclicOfSix(s, 5, 3, 2, 279, 14677, 358296, 3984876, 16193520, 1, 136, 6869, 156134, 1506600, 4406400);
    FirstRingWindow3Degree5(s);
    NextCyclicOfSix(s, 5, 4, 3, 415, 21546, 514430, 5491476, 20599920, 1, 116, 4829, 88114, 696600, 1814400);
    FirstRingWindow4Degree5(s);
    NextCyclicOfSix(s, 5, 5, 4, 531, 26375, 602544, 6188076, 22414320, 1, 105, 4048, 70140, 536176, 1370880);
    FirstRingWindow5Degree5(s);
    NextCyclicOfSix(s, 5, 6, 5, 636, 30423, 672684, 6724252, 23785200, 1, 114, 4669, 84216, 660700, 1713600);
  }

  // The second ring, [6, 21, 40, 44, 29, 10].

  lemma SecondRingWindow0Degree1(s: seq<int>)
    requires s == [6, 21, 40, 44, 29, 10]
    ensures WindowCoeffs(s, 0, 1) == [1, 6]
  {
    NextWindowOfOne(s, 0, 1, 1, 6);
  }

  lemma SecondRingWindow0Degree2(s: seq<int>)
    requires s == [6, 21, 40, 44, 29, 10]
    ensures WindowCoeffs(s, 0, 2) == [1, 27, 126]
  {
    SecondRingWindow0Degree1(s);
    NextWindowOfTwo(s, 0, 2, 1, 6, 21);
  }

  lemma SecondRingWindow0Degree3(s: seq<int>)
    requires s == [6, 21, 40, 44, 29, 10]
    ensures WindowCoeffs(s, 0, 3) == [1, 67, 1206, 5040]
  {
    SecondRingWindow0Degree2(s);
    NextWindowOfThree(s, 0, 3, 1, 27, 126, 40);
  }

  lemma SecondRingWindow0Degree4(s: seq<int>)
    requires s == [6, 21, 40, 44, 29, 10]
    ensures WindowCoeffs(s, 0, 4) == [1, 111, 4154, 58104, 221760]
  {
    SecondRingWindow0Degree3(s);
    NextWindowOfFour(s, 0, 4, 1, 67, 1206, 5040, 44);
  }

  lemma SecondRingWindow0Degree5(s: seq<int>)
    requires s == [6, 21, 40, 44, 29, 10]
    ensures WindowCoeffs(s, 0, 5) == [1, 140, 7373, 178570, 1906776, 6431040]
  {
    SecondRingWindow0Degree4(s);
    NextWindowOfFive(s, 0, 5, 1, 111, 4154, 58104, 221760, 29);
  }

  lemma SecondRingWindow1Degree1(s: seq<int>)
    requires s == [6, 21, 40, 44, 29, 10]
    ensures WindowCoeffs(s, 1, 1) == [1, 21]
  {
    NextWindowOfOne(s, 1, 1, 1, 21);
  }

  lemma SecondRingWindow1Degree2(s: seq<int>)
    requires s == [6, 21, 40, 44, 29, 10]
    ensures WindowCoeffs(s, 1, 2) == [1, 61, 840]
  {
    SecondRingWindow1Degree1(s);
    NextWindowOfTwo(s, 1, 2, 1, 21, 40);
  }

  lemma SecondRingWindow1Degree3(s: seq<int>)
    requires s == [6, 21, 40, 44, 29, 10]
    ensures WindowCoeffs(s, 1, 3) == [1, 105, 3524, 36960]
  {
    SecondRingWindow1Degree2(s);
    NextWindowOfThree(s, 1, 3, 1, 61, 840, 44);
  }

  lemma SecondRingWindow1Degree4(s: seq<int>)
    requires s == [6, 21, 40, 44, 29, 10]
    ensures WindowCoeffs(s, 1, 4) == [1, 134, 6569, 139156, 1071840]
  {
    SecondRingWindow1Degree3(s);
    NextWindowOfFour(s, 1, 4, 1, 105, 3524, 36960, 29);
  }

  lemma SecondRingWindow1Degree5(s: seq<int>)
    requires s == [6, 21, 40, 44, 29, 10]
    ensures WindowCoeffs(s, 1, 5) == [1, 144, 7909, 204846, 2463400, 10718400]
  {
    SecondRingWindow1Degree4(s);
    NextWindowOfFive(s, 1, 5, 1, 134, 6569, 139156, 1071840, 10);
  }

  lemma SecondRingWindow2Degree1(s: seq<int>)
    requires s == [6, 21, 40, 44, 29, 10]
    ensures WindowCoeffs(s, 2, 1) == [1, 40]
  {
    NextWindowOfOne(s, 2, 1, 1, 40);
  }

  lemma SecondRingWindow2Degree2(s: seq<int>)
    requires s == [6, 21, 40, 44, 29, 10]
    ensures WindowCoeffs(s, 2, 2) == [1, 84, 1760]
  {
    SecondRingWindow2Degree1(s);
    NextWindowOfTwo(s, 2, 2, 1, 40, 44);
  }

  lemma SecondRingWindow2Degree3(s: seq<int>)
    requires s == [6, 21, 40, 44, 29, 10]
    ensures WindowCoeffs(s, 2, 3) == [1, 113, 4196, 51040]
  {
    SecondRingWindow2Degree2(s);
    NextWindowOfThree(s, 2, 3, 1, 84, 1760, 29);
  }

  lemma SecondRingWindow2Degree4(s: seq<int>)
    requires s == [6, 21, 40, 44, 29, 10]
    ensures WindowCoeffs(s, 2, 4) == [1, 123, 5326, 93000, 510400]
  {
    SecondRingWindow2Degree3(s);
    NextWindowOfFour(s, 2, 4, 1, 113, 4196, 51040, 10);
  }

  lemma SecondRingWindow2Degree5(s: seq<int>)
    requires s == [6, 21, 40, 44, 29, 10]
    ensures WindowCoeffs(s, 2, 5) == [1, 129, 6064, 124956, 1068400, 3062400]
  {
    SecondRingWindow2Degree4(s);
    NextWindowOfFive(s, 2, 5, 1, 123, 5326, 93000, 510400, 6);
  }

  lemma SecondRingWindow3Degree1(s: seq<int>)
    requires s == [6, 21, 40, 44, 29, 10]
    ensures WindowCoeffs(s, 3, 1) == [1, 44]
  {
    NextWindowOfOne(s, 3, 1, 1, 44);
  }

  lemma SecondRingWindow3Degree2(s: seq<int>)
    requires s == [6, 21, 40, 44, 29, 10]
    ensures WindowCoeffs(s, 3, 2) == [1, 73, 1276]
  {
    SecondRingWindow3Degree1(s);
    NextWindowOfTwo(s, 3, 2, 1, 44, 29);
  }

  lemma SecondRingWindow3Degree3(s: seq<int>)
    requires s == [6, 21, 40, 44, 29, 10]
    ensures WindowCoeffs(s, 3, 3) == [1, 83, 2006, 12760]
  {
    SecondRingWindow3Degree2(s);
    NextWindowOfThree(s, 3, 3, 1, 73, 1276, 10);
  }

  lemma SecondRingWindow3Degree4(s: seq<int>)
    requires s == [6, 21, 40, 44, 29, 10]
    ensures WindowCoeffs(s, 3, 4) == [1, 89, 2504, 24796, 76560]
  {
    SecondRingWindow3Degree3(s);
    NextWindowOfFour(s, 3, 4, 1, 83, 2006, 12760, 6);
  }

  lemma SecondRingWindow3Degree5(s: seq<int>)
    requires s == [6, 21, 40, 44, 29, 10]
    ensures WindowCoeffs(s, 3, 5) == [1, 110, 4373, 77380, 597276, 1607760]
  {
    SecondRingWindow3Degree4(s);
    NextWindowOfFive(s, 3, 5, 1, 89, 2504, 24796, 76560, 21);
  }

  lemma SecondRingWindow4Degree1(s: seq<int>)
    requires s == [6, 21, 40, 44, 29, 10]
    ensures WindowCoeffs(s, 4, 1) == [1, 29]
  {
    NextWindowOfOne(s, 4, 1, 1, 29);
  }

  lemma SecondRingWindow4Degree2(s: seq<int>)
    requires s == [6, 21, 40, 44, 29, 10]
    ensures WindowCoeffs(s, 4, 2) == [1, 39, 290]
  {
    SecondRingWindow4Degree1(s);
    NextWindowOfTwo(s, 4, 2, 1, 29, 10);
  }

  lemma SecondRingWindow4Degree3(s: seq<int>)
    requires s == [6, 21, 40, 44, 29, 10]
    ensures WindowCoeffs(s, 4, 3) == [1, 45, 524, 1740]
  {
    SecondRingWindow4Degree2(s);
    NextWindowOfThree(s, 4, 3, 1, 39, 290, 6);
  }

  lemma SecondRingWindow4Degree4(s: seq<int>)
    requires s == [6, 21, 40, 44, 29, 10]
    ensures WindowCoeffs(s, 4, 4) == [1, 66, 1469, 12744, 36540]
  {
    SecondRingWindow4Degree3(s);
    NextWindowOfFour(s, 4, 4, 1, 45, 524, 1740, 21);
  }

  lemma SecondRingWindow4Degree5(s: seq<int>)
    requires s == [6, 21, 40, 44, 29, 10]
    ensures WindowCoeffs(s, 4, 5) == [1, 106, 4109, 71504, 546300, 1461600]
  {
    SecondRingWindow4Degree4(s);
    NextWindowOfFive(s, 4, 5, 1, 66, 1469, 12744, 36540, 40);
  }

  lemma SecondRingWindow5Degree1(s: seq<int>)
    requires s == [6, 21, 40, 44, 29, 10]
    ensures WindowCoeffs(s, 5, 1) == [1, 10]
  {
    NextWindowOfOne(s, 5, 1, 1, 10);
  }

  lemma SecondRingWindow5Degree2(s: seq<int>)
    requires s == [6, 21, 40, 44, 29, 10]
    ensures WindowCoeffs(s, 5, 2) == [1, 16, 60]
  {
    SecondRingWindow5Degree1(s);
    NextWindowOfTwo(s, 5, 2, 1, 10, 6);
  }

  lemma SecondRingWindow5Degree3(s: seq<int>)
    requires s == [6, 21, 40, 44, 29, 10]
    ensures WindowCoeffs(s, 5, 3) == [1, 37, 396, 1260]
  {
    SecondRingWindow5Degree2(s);
    NextWindowOfThree(s, 5, 3, 1, 16, 60, 21);
  }

  lemma SecondRingWindow5Degree4(s: seq<int>)
    requires s == [6, 21, 40, 44, 29, 10]
    ensures WindowCoeffs(s, 5, 4) == [1, 77, 1876, 17100, 50400]
  {
    SecondRingWindow5Degree3(s);
    NextWindowOfFour(s, 5, 4, 1, 37, 396, 1260, 40);
  }

  lemma SecondRingWindow5Degree5(s: seq<int>)
    requires s == [6, 21, 40, 44, 29, 10]
    ensures WindowCoeffs(s, 5, 5) == [1, 121, 5264, 99644, 802800, 2217600]
  {
    SecondRingWindow5Degree4(s);
    NextWindowOfFive(s, 5, 5, 1, 77, 1876, 17100, 50400, 44);
  }

  lemma SecondRingCyclicCoeffs1(s: seq<int>)
    requires s == [6, 21, 40, 44, 29, 10]
    ensures CyclicCoeffs(s, 1, 6) == [6, 150]
  {
    CyclicCoeffsFirst(s, 1);
    SecondRingWindow0Degree1(s);
    SecondRingWindow1Degree1(s);
    NextCyclicOfTwo(s, 1, 2, 1, 6, 1, 21);
    SecondRingWindow2Degree1(s);
    NextCyclicOfTwo(s, 1, 3, 2, 27, 1, 40);
    SecondRingWindow3Degree1(s);
    NextCyclicOfTwo(s, 1, 4, 3, 67, 1, 44);
    SecondRingWindow4Degree1(s);
    NextCyclicOfTwo(s, 1, 5, 4, 111, 1, 29);
    SecondRingWindow5Degree1(s);
    NextCyclicOfTwo(s, 1, 6, 5, 140, 1, 10);
  }

  lemma SecondRingCyclicCoeffs2(s: seq<int>)
    requires s == [6, 21, 40, 44, 29, 10]
    ensures CyclicCoeffs(s, 2, 6) == [6, 300, 4352]
  {
    CyclicCoeffsFirst(s, 2);
    SecondRingWindow0Degree2(s);
    SecondRingWindow1Degree2(s);
    NextCyclicOfThree(s, 2, 2, 1, 27, 126, 1, 61, 840);
    SecondRingWindow2Degree2(s);
    NextCyclicOfThree(s, 2, 3, 2, 88, 966, 1, 84, 1760);
    SecondRingWindow3Degree2(s);
    NextCyclicOfThree(s, 2, 4, 3, 172, 2726, 1, 73, 1276);
    SecondRingWindow4Degree2(s);
    NextCyclicOfThree(s, 2, 5, 4, 245, 4002, 1, 39, 290);
    SecondRingWindow5Degree2(s);
    NextCyclicOfThree(s, 2, 6, 5, 284, 4292, 1, 16, 60);
  }

  lemma SecondRingCyclicCoeffs3(s: seq<int>)
    requires s == [6, 21, 40, 44, 29, 10]
    ensures CyclicCoeffs(s, 3, 6) == [6, 450, 11852, 108800]
  {
    CyclicCoeffsFirst(s, 3);
    SecondRingWindow0Degree3(s);
    SecondRingWindow1Degree3(s);
    NextCyclicOfFour(s, 3, 2, 1, 67, 1206, 5040, 1, 105, 3524, 36960);
    SecondRingWindow2Degree3(s);
    NextCyclicOfFour(s, 3, 3, 2, 172, 4730, 42000, 1, 113, 4196, 51040);
    SecondRingWindow3Degree3(s);
    NextCyclicOfFour(s, 3, 4, 3, 285, 8926, 93040, 1, 83, 2006, 12760);
    SecondRingWindow4Degree3(s);
    NextCyclicOfFour(s, 3, 5, 4, 368, 10932, 105800, 1, 45, 524, 1740);
    SecondRingWindow5Degree3(s);
    NextCyclicOfFour(s, 3, 6, 5, 413, 11456, 107540, 1, 37, 396, 1260);
  }

  lemma SecondRingCyclicCoeffs4(s: seq<int>)
    requires s == [6, 21, 40, 44, 29, 10]
    ensures CyclicCoeffs(s, 4, 6) == [6, 600, 21898, 344900, 1967500]
  {
    CyclicCoeffsFirst(s, 4);
    SecondRingWindow0Degree4(s);
    SecondRingWindow1Degree4(s);
    NextCyclicOfFive(s, 4, 2, 1, 111, 4154, 58104, 221760, 1, 134, 6569, 139156, 1071840);
    SecondRingWindow2Degree4(s);
    NextCyclicOfFive(s, 4, 3, 2, 245, 10723, 197260, 1293600, 1, 123, 5326, 93000, 510400);
    SecondRingWindow3Degree4(s);
    NextCyclicOfFive(s, 4, 4, 3, 368, 16049, 290260, 1804000, 1, 89, 2504, 24796, 76560);
    SecondRingWindow4Degree4(s);
    NextCyclicOfFive(s, 4, 5, 4, 457, 18553, 315056, 1880560, 1, 66, 1469, 12744, 36540);
    SecondRingWindow5Degree4(s);
    NextCyclicOfFive(s, 4, 6, 5, 523, 20022, 327800, 1917100, 1, 77, 1876, 17100, 50400);
  }

  lemma SecondRingCyclicCoeffs5(s: seq<int>)
    requires s == [6, 21, 40, 44, 29, 10]
    ensures CyclicCoeffs(s, 5, 6) == [6, 750, 35092, 756900, 7384952, 25498800]
  {
    CyclicCoeffsFirst(s, 5);
    SecondRingWindow0Degree5(s);
    SecondRingWindow1Degree5(s);
    NextCyclicOfSix(s, 5, 2, 1, 140, 7373, 178570, 1906776, 6431040, 1, 144, 7909, 204846, 2463400, 10718400);
    SecondRingWindow2Degree5(s);
    NextCyclicOfSix(s, 5, 3, 2, 284, 15282, 383416, 4370176, 17149440, 1, 129, 6064, 124956, 1068400, 3062400);
    SecondRingWindow3Degree5(s);
    NextCyclicOfSix(s, 5, 4, 3, 413, 21346, 508372, 5438576, 20211840, 1, 110, 4373, 77380, 597276, 1607760);
    SecondRingWindow4Degree5(s);
    NextCyclicOfSix(s, 5, 5, 4, 523, 25719, 585752, 6035852, 21819600, 1, 106, 4109, 71504, 546300, 1461600);
    SecondRingWindow5Degree5(s);
    NextCyclicOfSix(s, 5, 6, 5, 629, 29828, 657256, 6582152, 23281200, 1, 121, 5264, 99644, 802800, 2217600);
  }

  lemma EvenTriangleOfFirstWindow0Degree1(s: seq<int>)
    requires s == [5, 34, 36]
    ensures WindowCoeffs(s, 0, 1) == [1, 5]
  {
    NextWindowOfOne(s, 0, 1, 1, 5);
  }

  lemma EvenTriangleOfFirstWindow0Degree2(s: seq<int>)
    requires s == [5, 34, 36]
    ensures WindowCoeffs(s, 0, 2) == [1, 39, 170]
  {
    EvenTriangleOfFirstWindow0Degree1(s);
    NextWindowOfTwo(s, 0, 2, 1, 5, 34);
  }

  lemma EvenTriangleOfFirstWindow1Degree1(s: seq<int>)
    requires s == [5, 34, 36]
    ensures WindowCoeffs(s, 1, 1) == [1, 34]
  {
    NextWindowOfOne(s, 1, 1, 1, 34);
  }

  lemma EvenTriangleOfFirstWindow1Degree2(s: seq<int>)
    requires s == [5, 34, 36]
    ensures WindowCoeffs(s, 1, 2) == [1, 70, 1224]
  {
    EvenTriangleOfFirstWindow1Degree1(s);
    NextWindowOfTwo(s, 1, 2, 1, 34, 36);
  }

  lemma EvenTriangleOfFirstWindow2Degree1(s: seq<int>)
    requires s == [5, 34, 36]
    ensures WindowCoeffs(s, 2, 1) == [1, 36]
  {
    NextWindowOfOne(s, 2, 1, 1, 36);
  }

  lemma EvenTriangleOfFirstWindow2Degree2(s: seq<int>)
    requires s == [5, 34, 36]
    ensures WindowCoeffs(s, 2, 2) == [1, 41, 180]
  {
    EvenTriangleOfFirstWindow2Degree1(s);
    NextWindowOfTwo(s, 2, 2, 1, 36, 5);
  }

  lemma EvenTriangleOfFirstCyclicCoeffs1(s: seq<int>)
    requires s == [5, 34, 36]
    ensures CyclicCoeffs(s, 1, 3) == [3, 75]
  {
    CyclicCoeffsFirst(s, 1);
    EvenTriangleOfFirstWindow0Degree1(s);
    EvenTriangleOfFirstWindow1Degree1(s);
    NextCyclicOfTwo(s, 1, 2, 1, 5, 1, 34);
    EvenTriangleOfFirstWindow2Degree1(s);
    NextCyclicOfTwo(s, 1, 3, 2, 39, 1, 36);
  }

  lemma EvenTriangleOfFirstCyclicCoeffs2(s: seq<int>)
    requires s == [5, 34, 36]
    ensures CyclicCoeffs(s, 2, 3) == [3, 150, 1574]
  {
    CyclicCoeffsFirst(s, 2);
    EvenTriangleOfFirstWindow0Degree2(s);
    EvenTriangleOfFirstWindow1Degree2(s);
    NextCyclicOfThree(s, 2, 2, 1, 39, 170, 1, 70, 1224);
    EvenTriangleOfFirstWindow2Degree2(s);
    NextCyclicOfThree(s, 2, 3, 2, 109, 1394, 1, 41, 180);
  }

  lemma OddTriangleOfSecondWindow0Degree1(s: seq<int>)
    requires s == [21, 44, 10]
    ensures WindowCoeffs(s, 0, 1) == [1, 21]
  {
    NextWindowOfOne(s, 0, 1, 1, 21);
  }

  lemma OddTriangleOfSecondWindow0Degree2(s: seq<int>)
    requires s == [21, 44, 10]
    ensures WindowCoeffs(s, 0, 2) == [1, 65, 924]
  {
    OddTriangleOfSecondWindow0Degree1(s);
    NextWindowOfTwo(s, 0, 2, 1, 21, 44);
  }

  lemma OddTriangleOfSecondWindow1Degree1(s: seq<int>)
    requires s == [21, 44, 10]
    ensures WindowCoeffs(s, 1, 1) == [1, 44]
  {
    NextWindowOfOne(s, 1, 1, 1, 44);
  }

  lemma OddTriangleOfSecondWindow1Degree2(s: seq<int>)
    requires s == [21, 44, 10]
    ensures WindowCoeffs(s, 1, 2) == [1, 54, 440]
  {
    OddTriangleOfSecondWindow1Degree1(s);
    NextWindowOfTwo(s, 1, 2, 1, 44, 10);
  }

  lemma OddTriangleOfSecondWindow2Degree1(s: seq<int>)
    requires s == [21, 44, 10]
    ensures WindowCoeffs(s, 2, 1) == [1, 10]
  {
    NextWindowOfOne(s, 2, 1, 1, 10);
  }

  lemma OddTriangleOfSecondWindow2Degree2(s: seq<int>)
    requires s == [21, 44, 10]
    ensures WindowCoeffs(s, 2, 2) == [1, 31, 210]
  {
    OddTriangleOfSecondWindow2Degree1(s);
    NextWindowOfTwo(s, 2, 2, 1, 10, 21);
  }

  lemma OddTriangleOfSecondCyclicCoeffs1(s: seq<int>)
    requires s == [21, 44, 10]
    ensures CyclicCoeffs(s, 1, 3) == [3, 75]
  {
    CyclicCoeffsFirst(s, 1);
    OddTriangleOfSecondWindow0Degree1(s);
    OddTriangleOfSecondWindow1Degree1(s);
    NextCyclicOfTwo(s, 1, 2, 1, 21, 1, 44);
    OddTriangleOfSecondWindow2Degree1(s);
    NextCyclicOfTwo(s, 1, 3, 2, 65, 1, 10);
  }

  lemma OddTriangleOfSecondCyclicCoeffs2(s: seq<int>)
    requires s == [21, 44, 10]
    ensures CyclicCoeffs(s, 2, 3) == [3, 150, 1574]
  {
    CyclicCoeffsFirst(s, 2);
    OddTriangleOfSecondWindow0Degree2(s);
    OddTriangleOfSecondWindow1Degree2(s);
    NextCyclicOfThree(s, 2, 2, 1, 65, 924, 1, 54, 440);
    OddTriangleOfSecondWindow2Degree2(s);
    NextCyclicOfThree(s, 2, 3, 2, 119, 1364, 1, 31, 210);
  }

  // The diagonal and regular-triangle product sums of both rings.

  lemma DiagonalCoeffsOfSamples(s1: seq<int>, s2: seq<int>)
    requires s1 == [5, 14, 34, 45, 36, 16] && s2 == [6, 21, 40, 44, 29, 10]
    ensures DiagonalCoeffs(s1) == [3, 150, 1273]
    ensures DiagonalCoeffs(s2) == [3, 150, 1273]
  {
    ProductCoeffsOfTwo(5, 45);
    ProductCoeffsOfTwo(14, 36);
    ProductCoeffsOfTwo(34, 16);
    AddCoeffsOfThree(1, 50, 225, 1, 50, 504);
    AddCoeffsOfThree(2, 100, 729, 1, 50, 544);
    ProductCoeffsOfTwo(6, 44);
    ProductCoeffsOfTwo(21, 29);
    ProductCoeffsOfTwo(40, 10);
    AddCoeffsOfThree(1, 50, 264, 1, 50, 609);
    AddCoeffsOfThree(2, 100, 873, 1, 50, 400);
  }

  lemma TriangleCoeffsOfSamples(s1: seq<int>, s2: seq<int>)
    requires s1 == [5, 14, 34, 45, 36, 16] && s2 == [6, 21, 40, 44, 29, 10]
    ensures TriangleCoeffs(s1) == [2, 150, 3148, 16200]
    ensures TriangleCoeffs(s2) == [2, 150, 3148, 16200]
  {
    ProductCoeffsOfThree(5, 34, 36);
    ProductCoeffsOfThree(14, 45, 16);
    AddCoeffsOfFour(1, 75, 1574, 6120, 1, 75, 1574, 10080);
    ProductCoeffsOfThree(6, 40, 29);
    ProductCoeffsOfThree(21, 44, 10);
    AddCoeffsOfFour(1, 75, 1574, 6960, 1, 75, 1574, 9240);
  }

  lemma RingsAgreeInDegree1(s1: seq<int>, s2: seq<int>, p: int)
    requires s1 == [5, 14, 34, 45, 36, 16] && s2 == [6, 21, 40, 44, 29, 10] && p == 1
    ensures CyclicCoeffs(s1, p, 6) == CyclicCoeffs(s2, p, 6)
  {
    FirstRingCyclicCoeffs1(s1);
    SecondRingCyclicCoeffs1(s2);
  }
  lemma RingsAgreeInDegree2(s1: seq<int>, s2: seq<int>, p: int)
    requires s1 == [5, 14, 34, 45, 36, 16] && s2 == [6, 21, 40, 44, 29, 10] && p == 2
    ensures CyclicCoeffs(s1, p, 6) == CyclicCoeffs(s2, p, 6)
  {
    FirstRingCyclicCoeffs2(s1);
    SecondRingCyclicCoeffs2(s2);
  }
  lemma RingsAgreeInDegree3(s1: seq<int>, s2: seq<int>, p: int)
    requires s1 == [5, 14, 34, 45, 36, 16] && s2 == [6, 21, 40, 44, 29, 10] && p == 3
    ensures CyclicCoeffs(s1, p, 6) == CyclicCoeffs(s2, p, 6)
  {
    FirstRingCyclicCoeffs3(s1);
    SecondRingCyclicCoeffs3(s2);
  }
  lemma RingsAgreeInDegree4(s1: seq<int>, s2: seq<int>, p: int)
    requires s1 == [5, 14, 34, 45, 36, 16] && s2 == [6, 21, 40, 44, 29, 10] && p == 4
    ensures CyclicCoeffs(s1, p, 6) == CyclicCoeffs(s2, p, 6)
  {
    FirstRingCyclicCoeffs4(s1);
    SecondRingCyclicCoeffs4(s2);
  }
  lemma RingsAgreeInDegree5(s1: seq<int>, s2: seq<int>, p: int)
    requires s1 == [5, 14, 34, 45, 36, 16] && s2 == [6, 21, 40, 44, 29, 10] && p == 5
    ensures CyclicCoeffs(s1, p, 6) == CyclicCoeffs(s2, p, 6)
  {
    FirstRingCyclicCoeffs5(s1);
    SecondRingCyclicCoeffs5(s2);
  }
  lemma TrianglesAgreeInDegree1(t1: seq<int>, t2: seq<int>, p: int)
    requires t1 == [5, 34, 36] && t2 == [21, 44, 10] && p == 1
    ensures CyclicCoeffs(t1, p, 3) == CyclicCoeffs(t2, p, 3)
  {
    EvenTriangleOfFirstCyclicCoeffs1(t1);
    OddTriangleOfSecondCyclicCoeffs1(t2);
  }
  lemma TrianglesAgreeInDegree2(t1: seq<int>, t2: seq<int>, p: int)
    requires t1 == [5, 34, 36] && t2 == [21, 44, 10] && p == 2
    ensures CyclicCoeffs(t1, p, 3) == CyclicCoeffs(t2, p, 3)
  {
    EvenTriangleOfFirstCyclicCoeffs2(t1);
    OddTriangleOfSecondCyclicCoeffs2(t2);
  }
  lemma SampleCyclicCoeffsAgree(s1: seq<int>, s2: seq<int>)
    requires s1 == [5, 14, 34, 45, 36, 16] && s2 == [6, 21, 40, 44, 29, 10]
    ensures forall p :: 1 <= p <= 5 ==> CyclicCoeffs(s1, p, 6) == CyclicCoeffs(s2, p, 6)
  {
    forall p | 1 <= p <= 5
      ensures CyclicCoeffs(s1, p, 6) == CyclicCoeffs(s2, p, 6)
    {
      if p == 1 {
        RingsAgreeInDegree1(s1, s2, p);
      } else if p == 2 {
        RingsAgreeInDegree2(s1, s2, p);
      } else if p == 3 {
        RingsAgreeInDegree3(s1, s2, p);
      } else if p == 4 {
        RingsAgreeInDegree4(s1, s2, p);
      } else {
        RingsAgreeInDegree5(s1, s2, p);
      }
    }
  }

  lemma SampleTrianglePowerSumsAgree(t1: seq<int>, t2: seq<int>)
    requires t1 == [5, 34, 36] && t2 == [21, 44, 10]
    ensures PowerSums(t1, 2) == PowerSums(t2, 2)
  {
    SampleTriangleConditions();
    PowerSumsAgreeAsTuples(t1, t2, 2);
  }

  lemma SampleTriangleCoeffsAgree(t1: seq<int>, t2: seq<int>)
    requires t1 == [5, 34, 36] && t2 == [21, 44, 10]
    ensures forall p :: 1 <= p <= 2 ==> CyclicCoeffs(t1, p, 3) == CyclicCoeffs(t2, p, 3)
  {
    forall p | 1 <= p <= 2
      ensures CyclicCoeffs(t1, p, 3) == CyclicCoeffs(t2, p, 3)
    {
      if p == 1 {
        TrianglesAgreeInDegree1(t1, t2, p);
      } else {
        TrianglesAgreeInDegree2(t1, t2, p);
      }
    }
  }

  /** Every coefficient list the identity needs agrees between the two
      rings of the sample. */
  lemma SampleCoefficientsAgree(s1: seq<int>, s2: seq<int>)
    requires s1 == [5, 14, 34, 45, 36, 16] && s2 == [6, 21, 40, 44, 29, 10]
    ensures CoefficientsAgree(s1, s2)
  {
    SamplePassesValidatorSteps();
    SampleCyclicCoeffsAgree(s1, s2);
    DiagonalCoeffsOfSamples(s1, s2);
    TriangleCoeffsOfSamples(s1, s2);
    SampleTrianglePowerSumsAgree(EvenTriangle(s1), OddTriangle(s2));
    SampleTriangleCoeffsAgree(EvenTriangle(s1), OddTriangle(s2));
  }

  /** The sample pair passes every comparison of the verifier at every point
      (n, m), not only at the base values. */
  lemma SampleHoldsForAllNM()
    ensures HoldsForAllNM([5, 14, 34, 45, 36, 16], [6, 21, 40, 44, 29, 10])
  {
    SampleCoefficientsAgree([5, 14, 34, 45, 36, 16], [6, 21, 40, 44, 29, 10]);
    CoefficientsGiveIdentity([5, 14, 34, 45, 36, 16], [6, 21, 40, 44, 29, 10]);
  }
}
