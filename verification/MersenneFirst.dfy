/** The first number of an unseeded generator, worked out. */
module MersenneFirst {
  import opened MersenneParameters
  import opened MersenneSeeding
  import opened MersenneStream
  import opened MersenneWords

  /** Word i of the state seeded with 5489. */
  ghost predicate Word(i: nat, w: bv32) { i < 624 && SeedWord(5489, i) == w }

  /** Word i from the word before it, with i given twice. */
  lemma Next(i: nat, n: bv32, v: bv32) returns (w: bv32)
    requires 1 <= i < 624 && Word(i - 1, v) && Index32(i) == n
    ensures Word(i, w) && w == 1812433253 * (v ^ (v >> 30)) + n
  {
    w := NextSeed32(v, n);
    NextIs(v, n);
  }

  lemma NextIs(v: bv32, n: bv32)
    ensures NextSeed32(v, n) == 1812433253 * (v ^ (v >> 30)) + n
  {
    assert Fold32(v) == v ^ (v >> 30);
    assert TimesSeed32(v ^ (v >> 30)) == 1812433253 * (v ^ (v >> 30));
    Plus32Is(1812433253 * (v ^ (v >> 30)), n);
  }

  lemma To20()
    ensures Word(20, 0xb1c27391)
  {
    var w := Next(1, 1, 5489);
    w := Next(2, 2, w); w := Next(3, 3, w); w := Next(4, 4, w); w := Next(5, 5, w); w := Next(6, 6, w);
    w := Next(7, 7, w); w := Next(8, 8, w); w := Next(9, 9, w); w := Next(10, 10, w); w := Next(11, 11, w);
    w := Next(12, 12, w); w := Next(13, 13, w); w := Next(14, 14, w); w := Next(15, 15, w);
    w := Next(16, 16, w); w := Next(17, 17, w); w := Next(18, 18, w); w := Next(19, 19, w);
    w := Next(20, 20, w);
  }

  lemma To40()
    ensures Word(40, 0x5f9086c7)
  {
    To20();
    var w := Next(21, 21, 0xb1c27391);
    w := Next(22, 22, w); w := Next(23, 23, w); w := Next(24, 24, w); w := Next(25, 25, w);
    w := Next(26, 26, w); w := Next(27, 27, w); w := Next(28, 28, w); w := Next(29, 29, w);
    w := Next(30, 30, w); w := Next(31, 31, w); w := Next(32, 32, w); w := Next(33, 33, w);
    w := Next(34, 34, w); w := Next(35, 35, w); w := Next(36, 36, w); w := Next(37, 37, w);
    w := Next(38, 38, w); w := Next(39, 39, w); w := Next(40, 40, w);
  }

  lemma To60()
    ensures Word(60, 0x4fd212fc)
  {
    To40();
    var w := Next(41, 41, 0x5f9086c7);
    w := Next(42, 42, w); w := Next(43, 43, w); w := Next(44, 44, w); w := Next(45, 45, w);
    w := Next(46, 46, w); w := Next(47, 47, w); w := Next(48, 48, w); w := Next(49, 49, w);
    w := Next(50, 50, w); w := Next(51, 51, w); w := Next(52, 52, w); w := Next(53, 53, w);
    w := Next(54, 54, w); w := Next(55, 55, w); w := Next(56, 56, w); w := Next(57, 57, w);
    w := Next(58, 58, w); w := Next(59, 59, w); w := Next(60, 60, w);
  }

  lemma To80()
    ensures Word(80, 0x253d5ba7)
  {
    To60();
    var w := Next(61, 61, 0x4fd212fc);
    w := Next(62, 62, w); w := Next(63, 63, w); w := Next(64, 64, w); w := Next(65, 65, w);
    w := Next(66, 66, w); w := Next(67, 67, w); w := Next(68, 68, w); w := Next(69, 69, w);
    w := Next(70, 70, w); w := Next(71, 71, w); w := Next(72, 72, w); w := Next(73, 73, w);
    w := Next(74, 74, w); w := Next(75, 75, w); w := Next(76, 76, w); w := Next(77, 77, w);
    w := Next(78, 78, w); w := Next(79, 79, w); w := Next(80, 80, w);
  }

  lemma To100()
    ensures Word(100, 0x6d5f3ea9)
  {
    To80();
    var w := Next(81, 81, 0x253d5ba7);
    w := Next(82, 82, w); w := Next(83, 83, w); w := Next(84, 84, w); w := Next(85, 85, w);
    w := Next(86, 86, w); w := Next(87, 87, w); w := Next(88, 88, w); w := Next(89, 89, w);
    w := Next(90, 90, w); w := Next(91, 91, w); w := Next(92, 92, w); w := Next(93, 93, w);
    w := Next(94, 94, w); w := Next(95, 95, w); w := Next(96, 96, w); w := Next(97, 97, w);
    w := Next(98, 98, w); w := Next(99, 99, w); w := Next(100, 100, w);
  }

  lemma To120()
    ensures Word(120, 0x952ce170)
  {
    To100();
    var w := Next(101, 101, 0x6d5f3ea9);
    w := Next(102, 102, w); w := Next(103, 103, w); w := Next(104, 104, w); w := Next(105, 105, w);
    w := Next(106, 106, w); w := Next(107, 107, w); w := Next(108, 108, w); w := Next(109, 109, w);
    w := Next(110, 110, w); w := Next(111, 111, w); w := Next(112, 112, w); w := Next(113, 113, w);
    w := Next(114, 114, w); w := Next(115, 115, w); w := Next(116, 116, w); w := Next(117, 117, w);
    w := Next(118, 118, w); w := Next(119, 119, w); w := Next(120, 120, w);
  }

  lemma To140()
    ensures Word(140, 0x4c9c9621)
  {
    To120();
    var w := Next(121, 121, 0x952ce170);
    w := Next(122, 122, w); w := Next(123, 123, w); w := Next(124, 124, w); w := Next(125, 125, w);
    w := Next(126, 126, w); w := Next(127, 127, w); w := Next(128, 128, w); w := Next(129, 129, w);
    w := Next(130, 130, w); w := Next(131, 131, w); w := Next(132, 132, w); w := Next(133, 133, w);
    w := Next(134, 134, w); w := Next(135, 135, w); w := Next(136, 136, w); w := Next(137, 137, w);
    w := Next(138, 138, w); w := Next(139, 139, w); w := Next(140, 140, w);
  }

  lemma To160()
    ensures Word(160, 0xebc4df9a)
  {
    To140();
    var w := Next(141, 141, 0x4c9c9621);
    w := Next(142, 142, w); w := Next(143, 143, w); w := Next(144, 144, w); w := Next(145, 145, w);
    w := Next(146, 146, w); w := Next(147, 147, w); w := Next(148, 148, w); w := Next(149, 149, w);
    w := Next(150, 150, w); w := Next(151, 151, w); w := Next(152, 152, w); w := Next(153, 153, w);
    w := Next(154, 154, w); w := Next(155, 155, w); w := Next(156, 156, w); w := Next(157, 157, w);
    w := Next(158, 158, w); w := Next(159, 159, w); w := Next(160, 160, w);
  }

  lemma To180()
    ensures Word(180, 0x83238235)
  {
    To160();
    var w := Next(161, 161, 0xebc4df9a);
    w := Next(162, 162, w); w := Next(163, 163, w); w := Next(164, 164, w); w := Next(165, 165, w);
    w := Next(166, 166, w); w := Next(167, 167, w); w := Next(168, 168, w); w := Next(169, 169, w);
    w := Next(170, 170, w); w := Next(171, 171, w); w := Next(172, 172, w); w := Next(173, 173, w);
    w := Next(174, 174, w); w := Next(175, 175, w); w := Next(176, 176, w); w := Next(177, 177, w);
    w := Next(178, 178, w); w := Next(179, 179, w); w := Next(180, 180, w);
  }

  lemma To200()
    ensures Word(200, 0x75ca540)
  {
    To180();
    var w := Next(181, 181, 0x83238235);
    w := Next(182, 182, w); w := Next(183, 183, w); w := Next(184, 184, w); w := Next(185, 185, w);
    w := Next(186, 186, w); w := Next(187, 187, w); w := Next(188, 188, w); w := Next(189, 189, w);
    w := Next(190, 190, w); w := Next(191, 191, w); w := Next(192, 192, w); w := Next(193, 193, w);
    w := Next(194, 194, w); w := Next(195, 195, w); w := Next(196, 196, w); w := Next(197, 197, w);
    w := Next(198, 198, w); w := Next(199, 199, w); w := Next(200, 200, w);
  }

  lemma To220()
    ensures Word(220, 0xe730b398)
  {
    To200();
    var w := Next(201, 201, 0x75ca540);
    w := Next(202, 202, w); w := Next(203, 203, w); w := Next(204, 204, w); w := Next(205, 205, w);
    w := Next(206, 206, w); w := Next(207, 207, w); w := Next(208, 208, w); w := Next(209, 209, w);
    w := Next(210, 210, w); w := Next(211, 211, w); w := Next(212, 212, w); w := Next(213, 213, w);
    w := Next(214, 214, w); w := Next(215, 215, w); w := Next(216, 216, w); w := Next(217, 217, w);
    w := Next(218, 218, w); w := Next(219, 219, w); w := Next(220, 220, w);
  }

  lemma To240()
    ensures Word(240, 0x640a6776)
  {
    To220();
    var w := Next(221, 221, 0xe730b398);
    w := Next(222, 222, w); w := Next(223, 223, w); w := Next(224, 224, w); w := Next(225, 225, w);
    w := Next(226, 226, w); w := Next(227, 227, w); w := Next(228, 228, w); w := Next(229, 229, w);
    w := Next(230, 230, w); w := Next(231, 231, w); w := Next(232, 232, w); w := Next(233, 233, w);
    w := Next(234, 234, w); w := Next(235, 235, w); w := Next(236, 236, w); w := Next(237, 237, w);
    w := Next(238, 238, w); w := Next(239, 239, w); w := Next(240, 240, w);
  }

  lemma To260()
    ensures Word(260, 0xb5b7e721)
  {
    To240();
    var w := Next(241, 241, 0x640a6776);
    w := Next(242, 242, w); w := Next(243, 243, w); w := Next(244, 244, w); w := Next(245, 245, w);
    w := Next(246, 246, w); w := Next(247, 247, w); w := Next(248, 248, w); w := Next(249, 249, w);
    w := Next(250, 250, w); w := Next(251, 251, w); w := Next(252, 252, w); w := Next(253, 253, w);
    w := Next(254, 254, w); w := Next(255, 255, w); w := Next(256, 256, w); w := Next(257, 257, w);
    w := Next(258, 258, w); w := Next(259, 259, w); w := Next(260, 260, w);
  }

  lemma To280()
    ensures Word(280, 0xb92a6b58)
  {
    To260();
    var w := Next(261, 261, 0xb5b7e721);
    w := Next(262, 262, w); w := Next(263, 263, w); w := Next(264, 264, w); w := Next(265, 265, w);
    w := Next(266, 266, w); w := Next(267, 267, w); w := Next(268, 268, w); w := Next(269, 269, w);
    w := Next(270, 270, w); w := Next(271, 271, w); w := Next(272, 272, w); w := Next(273, 273, w);
    w := Next(274, 274, w); w := Next(275, 275, w); w := Next(276, 276, w); w := Next(277, 277, w);
    w := Next(278, 278, w); w := Next(279, 279, w); w := Next(280, 280, w);
  }

  lemma To300()
    ensures Word(300, 0x193ff56c)
  {
    To280();
    var w := Next(281, 281, 0xb92a6b58);
    w := Next(282, 282, w); w := Next(283, 283, w); w := Next(284, 284, w); w := Next(285, 285, w);
    w := Next(286, 286, w); w := Next(287, 287, w); w := Next(288, 288, w); w := Next(289, 289, w);
    w := Next(290, 290, w); w := Next(291, 291, w); w := Next(292, 292, w); w := Next(293, 293, w);
    w := Next(294, 294, w); w := Next(295, 295, w); w := Next(296, 296, w); w := Next(297, 297, w);
    w := Next(298, 298, w); w := Next(299, 299, w); w := Next(300, 300, w);
  }

  lemma To320()
    ensures Word(320, 0xb09a94ce)
  {
    To300();
    var w := Next(301, 301, 0x193ff56c);
    w := Next(302, 302, w); w := Next(303, 303, w); w := Next(304, 304, w); w := Next(305, 305, w);
    w := Next(306, 306, w); w := Next(307, 307, w); w := Next(308, 308, w); w := Next(309, 309, w);
    w := Next(310, 310, w); w := Next(311, 311, w); w := Next(312, 312, w); w := Next(313, 313, w);
    w := Next(314, 314, w); w := Next(315, 315, w); w := Next(316, 316, w); w := Next(317, 317, w);
    w := Next(318, 318, w); w := Next(319, 319, w); w := Next(320, 320, w);
  }

  lemma To340()
    ensures Word(340, 0x243be596)
  {
    To320();
    var w := Next(321, 321, 0xb09a94ce);
    w := Next(322, 322, w); w := Next(323, 323, w); w := Next(324, 324, w); w := Next(325, 325, w);
    w := Next(326, 326, w); w := Next(327, 327, w); w := Next(328, 328, w); w := Next(329, 329, w);
    w := Next(330, 330, w); w := Next(331, 331, w); w := Next(332, 332, w); w := Next(333, 333, w);
    w := Next(334, 334, w); w := Next(335, 335, w); w := Next(336, 336, w); w := Next(337, 337, w);
    w := Next(338, 338, w); w := Next(339, 339, w); w := Next(340, 340, w);
  }

  lemma To360()
    ensures Word(360, 0xfc9e03a5)
  {
    To340();
    var w := Next(341, 341, 0x243be596);
    w := Next(342, 342, w); w := Next(343, 343, w); w := Next(344, 344, w); w := Next(345, 345, w);
    w := Next(346, 346, w); w := Next(347, 347, w); w := Next(348, 348, w); w := Next(349, 349, w);
    w := Next(350, 350, w); w := Next(351, 351, w); w := Next(352, 352, w); w := Next(353, 353, w);
    w := Next(354, 354, w); w := Next(355, 355, w); w := Next(356, 356, w); w := Next(357, 357, w);
    w := Next(358, 358, w); w := Next(359, 359, w); w := Next(360, 360, w);
  }

  lemma To380()
    ensures Word(380, 0x3752c73d)
  {
    To360();
    var w := Next(361, 361, 0xfc9e03a5);
    w := Next(362, 362, w); w := Next(363, 363, w); w := Next(364, 364, w); w := Next(365, 365, w);
    w := Next(366, 366, w); w := Next(367, 367, w); w := Next(368, 368, w); w := Next(369, 369, w);
    w := Next(370, 370, w); w := Next(371, 371, w); w := Next(372, 372, w); w := Next(373, 373, w);
    w := Next(374, 374, w); w := Next(375, 375, w); w := Next(376, 376, w); w := Next(377, 377, w);
    w := Next(378, 378, w); w := Next(379, 379, w); w := Next(380, 380, w);
  }

  lemma To397()
    ensures Word(397, 0xbdc68d6c)
  {
    To380();
    var w := Next(381, 381, 0x3752c73d);
    w := Next(382, 382, w); w := Next(383, 383, w); w := Next(384, 384, w); w := Next(385, 385, w);
    w := Next(386, 386, w); w := Next(387, 387, w); w := Next(388, 388, w); w := Next(389, 389, w);
    w := Next(390, 390, w); w := Next(391, 391, w); w := Next(392, 392, w); w := Next(393, 393, w);
    w := Next(394, 394, w); w := Next(395, 395, w); w := Next(396, 396, w); w := Next(397, 397, w);
  }

  /** Words 0, 1 and 397 make word 624. */
  lemma Word624()
    ensures X(SeedState(5489), 624) == 0x9b0afa27
  {
    var init := SeedState(5489);
    To397();
    var w := Next(1, 1, 5489);
    WordIs(init, 0);
    assert X(init, 0) == 5489 && X(init, 1) == 0x4d98ee96 && X(init, 397) == 0xbdc68d6c;
    Twisted624();
  }

  lemma Twisted624()
    ensures TwistedWord(5489, 0x4d98ee96, 0xbdc68d6c) == 0x9b0afa27
  {
  }

  /** The first number of an unseeded generator. */
  lemma FirstNumber()
    ensures Output(SeedState(5489), 0) == 3499211612
  {
    Word624();
    var a, b, c := OutputIs(SeedState(5489), 0);
  }

  lemma FirstWide()
    ensures Wide(Output(SeedState(5489), 0)) == 3499211612
  {
    FirstNumber();
    assert Wide(3499211612) == 3499211612;
  }
}
