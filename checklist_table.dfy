/**
 * The 107-item checklist table itself, the facts about its layout, and the
 * helper functions and count constants defined over it.
 */
module ChecklistTable {
  import opened Wrappers
  import opened Checklist

  /** The items of category Caption (ids 1-9). */
  const CaptionItems: seq<ChecklistItem> := [
    Item(1, Caption, @"Caption includes full court name (UNITED STATES DISTRICT COURT)",
      @"L.U.Civ.R. 10(a)", true, None,
      Some(@"UNITED STATES DISTRICT COURT"), Some(@"check_court_name")),
    Item(2, Caption, @"Caption includes plaintiff name and designation",
      @"Fed. R. Civ. P. 10(a)", true, Some(@"PLAINTIFF"),
      None, Some(@"check_plaintiff_designation")),
    Item(3, Caption, @"Caption includes defendant names and designation",
      @"Fed. R. Civ. P. 10(a)", true, Some(@"DEFENDANT"),
      None, Some(@"check_defendant_designation")),
    Item(4, Caption, @"Case number format is correct",
      @"L.U.Civ.R. 10(a)", true, Some(@"\d:\d{2}-cv-\d+"),
      None, Some(@"check_case_number")),
    Item(5, Caption, @"Document title clearly identifies as MOTION",
      @"Fed. R. Civ. P. 7(b)(1)", true, Some(@"MOTION.*TEMPORARY RESTRAINING ORDER|MOTION.*TRO"),
      None, Some(@"check_motion_title")),
    Item(6, Caption, @"Title cites Fed. R. Civ. P. 65",
      @"L.U.Civ.R. 65", true, Some(@"Rule\s*65|Fed\.?\s*R\.?\s*Civ\.?\s*P\.?\s*65"),
      None, Some(@"check_rule_65_in_title")),
    Item(7, Caption, @"'EX PARTE' in title if no prior notice to defendants",
      @"Fed. R. Civ. P. 65(b)", true, Some(@"EX\s*PARTE"),
      None, Some(@"check_ex_parte")),
    Item(8, Caption, @"'URGENT AND NECESSITOUS' in title if expedited review needed",
      @"L.U.Civ.R. 7(b)(5)", true, Some(@"URGENT|NECESSITOUS"),
      None, Some(@"check_urgent_title")),
    Item(9, Caption, @"'EMERGENCY' in title if applicable",
      @"L.U.Civ.R. 7(b)(5)", true, Some(@"EMERGENCY"),
      None, Some(@"check_emergency_title"))
  ]

  /** The items of category MotionContent (ids 10-21). */
  const MotionContentItems: seq<ChecklistItem> := [
    Item(10, MotionContent, @"Opening paragraph identifies movant",
      @"Fed. R. Civ. P. 7(b)(1)", true, Some(@"(Plaintiff|Movant).*moves|hereby\s+moves"),
      None, Some(@"check_movant_identified")),
    Item(11, MotionContent, @"States movant is proceeding 'pro se'",
      @"L.U.Civ.R. 83.1", true, Some(@"pro\s*se"),
      None, Some(@"check_pro_se_stated")),
    Item(12, MotionContent, @"Cites Fed. R. Civ. P. 65(b) in opening",
      @"Fed. R. Civ. P. 65(b)", true, Some(@"65\s*\(b\)|Rule\s*65"),
      None, Some(@"check_rule_65b_cited")),
    Item(13, MotionContent, @"States grounds for relief sought",
      @"Fed. R. Civ. P. 7(b)(1)", false, None,
      None, None),
    Item(14, MotionContent, @"Contains factual grounds only (no legal argument)",
      @"L.U.Civ.R. 7(b)(2)(A)", false, None,
      None, None),
    Item(15, MotionContent, @"NO case citations in motion (belong in brief)",
      @"L.U.Civ.R. 7(b)(2)(B)", true, Some(@"\d+\s+(?:F\.\d+d?|U\.S\.|S\.Ct\.|L\.Ed\.)\s+\d+"),
      None, Some(@"check_no_case_citations")),
    Item(16, MotionContent, @"NO legal argument in motion (belong in brief)",
      @"L.U.Civ.R. 7(b)(2)(B)", false, None,
      None, None),
    Item(17, MotionContent, @"NO quotations from authorities in motion",
      @"L.U.Civ.R. 7(b)(2)(B)", false, None,
      None, None),
    Item(18, MotionContent, @"Identifies each defendant to be restrained",
      @"Fed. R. Civ. P. 65(d)(2)", false, None,
      None, None),
    Item(19, MotionContent, @"Describes specific acts to be restrained",
      @"Fed. R. Civ. P. 65(d)(1)(C)", false, None,
      None, None),
    Item(20, MotionContent, @"Identifies whether relief is mandatory or prohibitory",
      @"Fed. R. Civ. P. 65(b)", false, None,
      None, None),
    Item(21, MotionContent, @"States specific facts showing irreparable injury",
      @"Fed. R. Civ. P. 65(b)(1)(A)", true, Some(@"irreparable\s+(harm|injury|damage)"),
      None, Some(@"check_irreparable_harm"))
  ]

  /** The items of category CertificateNotice (ids 22-26). */
  const CertificateNoticeItems: seq<ChecklistItem> := [
    Item(22, CertificateNotice, @"Certificate of notice efforts included",
      @"Fed. R. Civ. P. 65(b)(1)(B)", true, Some(@"CERTIFICATE\s+OF\s+NOTICE|notice\s+effort"),
      None, Some(@"check_certificate_notice")),
    Item(23, CertificateNotice, @"Certificate signed by movant",
      @"Fed. R. Civ. P. 65(b)(1)", false, None,
      None, None),
    Item(24, CertificateNotice, @"Describes specific efforts to give notice",
      @"Fed. R. Civ. P. 65(b)(1)(B)", false, None,
      None, None),
    Item(25, CertificateNotice, @"Describes responses received (if any)",
      @"Fed. R. Civ. P. 65(b)(1)(B)", false, None,
      None, None),
    Item(26, CertificateNotice, @"States reasons why notice should not be required (if applicable)",
      @"Fed. R. Civ. P. 65(b)(1)(B)", false, None,
      None, None)
  ]

  /** The items of category SecurityBond (ids 27-30). */
  const SecurityBondItems: seq<ChecklistItem> := [
    Item(27, SecurityBond, @"Addresses Rule 65(c) security/bond requirement",
      @"Fed. R. Civ. P. 65(c)", true, Some(@"65\s*\(c\)|security|bond"),
      None, Some(@"check_bond_addressed")),
    Item(28, SecurityBond, @"Proposes specific bond amount or waiver request",
      @"Fed. R. Civ. P. 65(c)", false, None,
      None, None),
    Item(29, SecurityBond, @"Explains basis for waiver if requesting one",
      @"Fed. R. Civ. P. 65(c)", false, None,
      None, None),
    Item(30, SecurityBond, @"States will not post bond until Court orders",
      @"Fed. R. Civ. P. 65(c)", false, None,
      None, None)
  ]

  /** The items of category ReliefRequested (ids 31-35). */
  const ReliefRequestedItems: seq<ChecklistItem> := [
    Item(31, ReliefRequested, @"Clearly identifies specific relief sought",
      @"Fed. R. Civ. P. 65(b)", false, None,
      None, None),
    Item(32, ReliefRequested, @"Identifies specific acts to be enjoined",
      @"Fed. R. Civ. P. 65(d)(1)(C)", false, None,
      None, None),
    Item(33, ReliefRequested, @"Identifies persons to be bound by the order",
      @"Fed. R. Civ. P. 65(d)(2)", false, None,
      None, None),
    Item(34, ReliefRequested, @"Requests appropriate duration (max 14 days)",
      @"Fed. R. Civ. P. 65(b)(2)", true, Some(@"14\s*days|fourteen\s*days"),
      None, Some(@"check_duration_request")),
    Item(35, ReliefRequested, @"Requests setting of preliminary injunction hearing",
      @"Fed. R. Civ. P. 65(b)(3)", true, Some(@"preliminary\s+injunction\s+hearing|hearing.*preliminary"),
      None, Some(@"check_pi_hearing_request"))
  ]

  /** The items of category Verification (ids 36-42). */
  const VerificationItems: seq<ChecklistItem> := [
    Item(36, Verification, @"Declaration/verification included",
      @"Fed. R. Civ. P. 65(b)(1)(A)", true, Some(@"DECLARATION|VERIFICATION|under penalty of perjury"),
      None, Some(@"check_declaration_exists")),
    Item(37, Verification, "Contains 28 U.S.C. \U{00A7} 1746 language",
      "28 U.S.C. \U{00A7} 1746", true, Some(@"28\s*U\.S\.C\.\s*§?\s*1746|penalty of perjury"),
      None, Some(@"check_1746_language")),
    Item(38, Verification, @"'True and correct' statement included",
      "28 U.S.C. \U{00A7} 1746", true, Some(@"true\s+and\s+correct|true\s+and\s+accurate"),
      None, Some(@"check_true_correct")),
    Item(39, Verification, @"States based on personal knowledge",
      "28 U.S.C. \U{00A7} 1746", true, Some(@"personal\s+knowledge"),
      None, Some(@"check_personal_knowledge")),
    Item(40, Verification, @"Signed by declarant",
      "28 U.S.C. \U{00A7} 1746", true, Some(@"/s/|signature"),
      None, Some(@"check_declaration_signed")),
    Item(41, Verification, @"Includes date of declaration",
      "28 U.S.C. \U{00A7} 1746", false, None,
      None, None),
    Item(42, Verification, @"Includes location (city, state)",
      "28 U.S.C. \U{00A7} 1746", false, None,
      None, None)
  ]

  /** The items of category Formatting (ids 43-55). */
  const FormattingItems: seq<ChecklistItem> := [
    Item(43, Formatting, @"Font is Times New Roman 12pt or equivalent",
      @"L.U.Civ.R. 5(c)(1)", false, None,
      None, None),
    Item(44, Formatting, @"Body text is double-spaced",
      @"L.U.Civ.R. 5(c)(1)", false, None,
      None, None),
    Item(45, Formatting, @"Block quotations may be single-spaced",
      @"L.U.Civ.R. 5(c)(1)", false, None,
      None, None),
    Item(46, Formatting, @"Headings may be single-spaced",
      @"L.U.Civ.R. 5(c)(1)", false, None,
      None, None),
    Item(47, Formatting, @"Footnotes are 11pt minimum",
      @"L.U.Civ.R. 5(c)(1)", false, None,
      None, None),
    Item(48, Formatting, @"Top margin is 1 inch",
      @"L.U.Civ.R. 5(c)(1)", false, None,
      None, None),
    Item(49, Formatting, @"Bottom margin is 1 inch",
      @"L.U.Civ.R. 5(c)(1)", false, None,
      None, None),
    Item(50, Formatting, @"Left margin is 1 inch",
      @"L.U.Civ.R. 5(c)(1)", false, None,
      None, None),
    Item(51, Formatting, @"Right margin is 1 inch",
      @"L.U.Civ.R. 5(c)(1)", false, None,
      None, None),
    Item(52, Formatting, @"Page numbers present",
      @"L.U.Civ.R. 5(c)(1)", false, None,
      None, None),
    Item(53, Formatting, @"Page numbers within margins",
      @"L.U.Civ.R. 5(c)(1)", false, None,
      None, None),
    Item(54, Formatting, @"Motion is 4 pages or less",
      @"L.U.Civ.R. 7(b)(2)(A)", true, None,
      None, Some(@"check_page_count")),
    Item(55, Formatting, @"Paper size is 8.5 x 11 inches",
      @"L.U.Civ.R. 5(c)(1)", false, None,
      None, None)
  ]

  /** The items of category Signature (ids 56-64). */
  const SignatureItems: seq<ChecklistItem> := [
    Item(56, Signature, @"Signature block at end of document",
      @"Fed. R. Civ. P. 11(a)", true, Some(@"Respectfully\s+submitted|/s/"),
      None, Some(@"check_signature_block")),
    Item(57, Signature, @"Actual or electronic signature present",
      @"Fed. R. Civ. P. 11(a)", true, Some(@"/s/\s*\w+"),
      None, Some(@"check_electronic_signature")),
    Item(58, Signature, @"Full name printed below signature",
      @"Fed. R. Civ. P. 11(a)", false, None,
      None, None),
    Item(59, Signature, @"Mailing address included",
      @"Fed. R. Civ. P. 11(a)", false, None,
      None, None),
    Item(60, Signature, @"Physical address if different from mailing",
      @"L.U.Civ.R. 83.1(c)", false, None,
      None, None),
    Item(61, Signature, @"Phone number included",
      @"Fed. R. Civ. P. 11(a)", true, Some(@"\(\d{3}\)\s*\d{3}[-.]?\d{4}|\d{3}[-.]?\d{3}[-.]?\d{4}"),
      None, Some(@"check_phone_number")),
    Item(62, Signature, @"Email address included",
      @"Fed. R. Civ. P. 11(a)", true, Some(@"[a-zA-Z0-9._%+-]+@[a-zA-Z0-9.-]+\.[a-zA-Z]{2,}"),
      None, Some(@"check_email_address")),
    Item(63, Signature, @"'Pro Se Plaintiff' designation included",
      @"L.U.Civ.R. 83.1", true, Some(@"Pro\s*Se\s*Plaintiff"),
      None, Some(@"check_pro_se_designation")),
    Item(64, Signature, @"Bar number NOT required for pro se",
      @"L.U.Civ.R. 83.1", false, None,
      None, None)
  ]

  /** The items of category CertificateService (ids 65-73). */
  const CertificateServiceItems: seq<ChecklistItem> := [
    Item(65, CertificateService, @"Certificate of service included",
      @"Fed. R. Civ. P. 5(d)(1)(B)", true, Some(@"CERTIFICATE\s+OF\s+SERVICE"),
      None, Some(@"check_certificate_service")),
    Item(66, CertificateService, @"States date of service",
      @"Fed. R. Civ. P. 5(d)(1)(B)", false, None,
      None, None),
    Item(67, CertificateService, @"Date matches actual service date",
      @"Fed. R. Civ. P. 5(d)(1)(B)", false, None,
      None, None),
    Item(68, CertificateService, @"Lists all parties served",
      @"Fed. R. Civ. P. 5(a)(1)", false, None,
      None, None),
    Item(69, CertificateService, @"Full name of each party served",
      @"Fed. R. Civ. P. 5(a)(1)", false, None,
      None, None),
    Item(70, CertificateService, @"Address of each party served",
      @"Fed. R. Civ. P. 5(b)(2)", false, None,
      None, None),
    Item(71, CertificateService, @"Method of service stated",
      @"Fed. R. Civ. P. 5(b)(2)", true, Some(@"(mail|email|electronic|hand.deliver|CM/ECF)"),
      None, Some(@"check_service_method")),
    Item(72, CertificateService, @"Signed by person making service",
      @"Fed. R. Civ. P. 5(d)(1)(B)", false, None,
      None, None),
    Item(73, CertificateService, @"Pro se: reflects mail or hand delivery (not CM/ECF)",
      @"L.U.Civ.R. 5(a)(2)", false, None,
      None, None)
  ]

  /** The items of category DateFiling (ids 74-77). */
  const DateFilingItems: seq<ChecklistItem> := [
    Item(74, DateFiling, @"Date line present on document",
      @"Fed. R. Civ. P. 11(a)", true, Some(@"Dated:|Date:|dated this"),
      None, Some(@"check_date_line")),
    Item(75, DateFiling, @"Date matches intended filing date",
      @"Fed. R. Civ. P. 11(a)", false, None,
      None, None),
    Item(76, DateFiling, @"Declaration date matches or precedes filing date",
      "28 U.S.C. \U{00A7} 1746", false, None,
      None, None),
    Item(77, DateFiling, @"Service date matches filing date",
      @"Fed. R. Civ. P. 5(d)(1)", false, None,
      None, None)
  ]

  /** The items of category Exhibits (ids 78-86). */
  const ExhibitsItems: seq<ChecklistItem> := [
    Item(78, Exhibits, @"Declaration/affidavit attached",
      @"Fed. R. Civ. P. 65(b)(1)(A)", false, None,
      None, None),
    Item(79, Exhibits, @"Proposed order attached",
      @"L.U.Civ.R. 65(a)(2)", true, Some(@"PROPOSED\s+ORDER|ORDER\s+GRANTING"),
      None, Some(@"check_proposed_order")),
    Item(80, Exhibits, @"Exhibits properly labeled (Exhibit A, B, etc.)",
      @"L.U.Civ.R. 10(c)", true, Some(@"Exhibit\s+[A-Z]|EXHIBIT\s+[A-Z]"),
      None, Some(@"check_exhibit_labels")),
    Item(81, Exhibits, @"Exhibits have descriptive captions",
      @"L.U.Civ.R. 10(c)", false, None,
      None, None),
    Item(82, Exhibits, @"Exhibits attached to motion (not filed separately)",
      @"L.U.Civ.R. 10(c)", false, None,
      None, None),
    Item(83, Exhibits, @"Privacy redactions: SSN redacted to last 4 digits",
      @"Fed. R. Civ. P. 5.2(a)", false, None,
      None, None),
    Item(84, Exhibits, @"Privacy redactions: Financial account numbers redacted",
      @"Fed. R. Civ. P. 5.2(a)", false, None,
      None, None),
    Item(85, Exhibits, @"Privacy redactions: Birth dates show only year",
      @"Fed. R. Civ. P. 5.2(a)", false, None,
      None, None),
    Item(86, Exhibits, @"Privacy redactions: Minor names redacted to initials",
      @"Fed. R. Civ. P. 5.2(a)", false, None,
      None, None)
  ]

  /** The items of category ProposedOrder (ids 87-97). */
  const ProposedOrderItems: seq<ChecklistItem> := [
    Item(87, ProposedOrder, @"Proposed order states reasons for issuance",
      @"Fed. R. Civ. P. 65(d)(1)(A)", false, None,
      None, None),
    Item(88, ProposedOrder, @"Proposed order states terms specifically",
      @"Fed. R. Civ. P. 65(d)(1)(B)", false, None,
      None, None),
    Item(89, ProposedOrder, @"Proposed order describes acts restrained in detail",
      @"Fed. R. Civ. P. 65(d)(1)(C)", false, None,
      None, None),
    Item(90, ProposedOrder, @"No incorporation by reference to complaint/motion",
      @"Fed. R. Civ. P. 65(d)(1)", false, None,
      None, None),
    Item(91, ProposedOrder, @"Identifies parties bound by order",
      @"Fed. R. Civ. P. 65(d)(2)(A)", false, None,
      None, None),
    Item(92, ProposedOrder, @"Identifies officers/agents/employees bound",
      @"Fed. R. Civ. P. 65(d)(2)(B)", false, None,
      None, None),
    Item(93, ProposedOrder, @"Identifies persons in active concert bound",
      @"Fed. R. Civ. P. 65(d)(2)(C)", false, None,
      None, None),
    Item(94, ProposedOrder, @"States duration of TRO (max 14 days)",
      @"Fed. R. Civ. P. 65(b)(2)", false, None,
      None, None),
    Item(95, ProposedOrder, @"States bond amount or waiver",
      @"Fed. R. Civ. P. 65(c)", false, None,
      None, None),
    Item(96, ProposedOrder, @"Signature line for judge",
      @"L.U.Civ.R. 65", false, None,
      None, None),
    Item(97, ProposedOrder, @"Word version of proposed order prepared",
      @"L.U.Civ.R. 65(a)(2)", false, None,
      None, None)
  ]

  /** The items of category UrgentEmergency (ids 98-103). */
  const UrgentEmergencyItems: seq<ChecklistItem> := [
    Item(98, UrgentEmergency, @"'URGENT' in title if expedited review needed",
      @"L.U.Civ.R. 7(b)(5)", true, Some(@"URGENT"),
      None, Some(@"check_urgent_in_title")),
    Item(99, UrgentEmergency, @"Deputy clerk contacted re: emergency",
      @"L.U.Civ.R. 77(c)", false, None,
      None, None),
    Item(100, UrgentEmergency, @"Hearing coordinated with clerk's office",
      @"L.U.Civ.R. 77(c)", false, None,
      None, None),
    Item(101, UrgentEmergency, @"Notice of hearing prepared (if required)",
      @"L.U.Civ.R. 7(b)(4)", false, None,
      None, None),
    Item(102, UrgentEmergency, @"Notice of hearing filed with motion",
      @"L.U.Civ.R. 7(b)(4)", false, None,
      None, None),
    Item(103, UrgentEmergency, @"Notice of hearing served on all parties",
      @"L.U.Civ.R. 7(b)(4)", false, None,
      None, None)
  ]

  /** The items of category ProSe (ids 104-107). */
  const ProSeItems: seq<ChecklistItem> := [
    Item(104, ProSe, @"Paper original prepared for filing (if not e-filing)",
      @"L.U.Civ.R. 5(a)(2)", false, None,
      None, None),
    Item(105, ProSe, @"Copies prepared for file-stamping",
      @"L.U.Civ.R. 5(a)(2)", false, None,
      None, None),
    Item(106, ProSe, @"Filing fee paid or IFP granted/pending",
      "28 U.S.C. \U{00A7} 1914", false, None,
      None, None),
    Item(107, ProSe, @"File-stamped copies retained for records",
      @"L.U.Civ.R. 5(a)(2)", false, None,
      None, None)
  ]

  /** The whole table, category by category in the order the source lists them. */
  const TroChecklist: seq<ChecklistItem> :=
    CaptionItems + MotionContentItems + CertificateNoticeItems + SecurityBondItems
    + ReliefRequestedItems + VerificationItems + FormattingItems + SignatureItems
    + CertificateServiceItems + DateFilingItems + ExhibitsItems + ProposedOrderItems
    + UrgentEmergencyItems + ProSeItems

  /** The block of the table holding one category's items. */
  function CategoryItems(cat: CheckCategory): seq<ChecklistItem> {
    match cat
    case Caption => CaptionItems
    case MotionContent => MotionContentItems
    case CertificateNotice => CertificateNoticeItems
    case SecurityBond => SecurityBondItems
    case ReliefRequested => ReliefRequestedItems
    case Verification => VerificationItems
    case Formatting => FormattingItems
    case Signature => SignatureItems
    case CertificateService => CertificateServiceItems
    case DateFiling => DateFilingItems
    case Exhibits => ExhibitsItems
    case ProposedOrder => ProposedOrderItems
    case UrgentEmergency => UrgentEmergencyItems
    case ProSe => ProSeItems
  }

  /** The id of the first item of each category's block. */
  function FirstId(cat: CheckCategory): int {
    match cat
    case Caption => 1
    case MotionContent => 10
    case CertificateNotice => 22
    case SecurityBond => 27
    case ReliefRequested => 31
    case Verification => 36
    case Formatting => 43
    case Signature => 56
    case CertificateService => 65
    case DateFiling => 74
    case Exhibits => 78
    case ProposedOrder => 87
    case UrgentEmergency => 98
    case ProSe => 104
  }

  /** What holds of each row: automatic items name a detector routine; the others are bare. */
  predicate WellFormedItem(x: ChecklistItem) {
    (x.autoCheckable ==> x.checkMethod.Some?)
    && (x.autoCheckable && x.id != 54 ==> x.pattern.Some? || x.requiredText.Some?)
    && (!x.autoCheckable ==> x.pattern.None? && x.requiredText.None? && x.checkMethod.None?)
  }

  /** Consecutive ids from `start`, all of one category, every row well formed. */
  predicate BlockShape(b: seq<ChecklistItem>, start: int, cat: CheckCategory) {
    forall i :: 0 <= i < |b| ==> b[i].id == start + i && b[i].category == cat && WellFormedItem(b[i])
  }

  lemma CaptionBlock()
    ensures |CaptionItems| == 9 && BlockShape(CaptionItems, 1, Caption)
  {
  }

  lemma MotionContentBlock()
    ensures |MotionContentItems| == 12 && BlockShape(MotionContentItems, 10, MotionContent)
  {
  }

  lemma CertificateNoticeBlock()
    ensures |CertificateNoticeItems| == 5 && BlockShape(CertificateNoticeItems, 22, CertificateNotice)
  {
  }

  lemma SecurityBondBlock()
    ensures |SecurityBondItems| == 4 && BlockShape(SecurityBondItems, 27, SecurityBond)
  {
  }

  lemma ReliefRequestedBlock()
    ensures |ReliefRequestedItems| == 5 && BlockShape(ReliefRequestedItems, 31, ReliefRequested)
  {
  }

  lemma VerificationBlock()
    ensures |VerificationItems| == 7 && BlockShape(VerificationItems, 36, Verification)
  {
  }

  lemma FormattingBlock()
    ensures |FormattingItems| == 13 && BlockShape(FormattingItems, 43, Formatting)
  {
  }

  lemma SignatureBlock()
    ensures |SignatureItems| == 9 && BlockShape(SignatureItems, 56, Signature)
  {
  }

  lemma CertificateServiceBlock()
    ensures |CertificateServiceItems| == 9 && BlockShape(CertificateServiceItems, 65, CertificateService)
  {
  }

  lemma DateFilingBlock()
    ensures |DateFilingItems| == 4 && BlockShape(DateFilingItems, 74, DateFiling)
  {
  }

  lemma ExhibitsBlock()
    ensures |ExhibitsItems| == 9 && BlockShape(ExhibitsItems, 78, Exhibits)
  {
  }

  lemma ProposedOrderBlock()
    ensures |ProposedOrderItems| == 11 && BlockShape(ProposedOrderItems, 87, ProposedOrder)
  {
  }

  lemma UrgentEmergencyBlock()
    ensures |UrgentEmergencyItems| == 6 && BlockShape(UrgentEmergencyItems, 98, UrgentEmergency)
  {
  }

  lemma ProSeBlock()
    ensures |ProSeItems| == 4 && BlockShape(ProSeItems, 104, ProSe)
  {
  }

  /** Each category's block: its length, ids from `FirstId`, its category, and well-formed rows. */
  lemma CategoryBlock(cat: CheckCategory)
    ensures BlockShape(CategoryItems(cat), FirstId(cat), cat)
    ensures FirstId(cat) + |CategoryItems(cat)| == NextId(cat)
  {
    match cat

    case Caption => CaptionBlock();
    case MotionContent => MotionContentBlock();
    case CertificateNotice => CertificateNoticeBlock();
    case SecurityBond => SecurityBondBlock();
    case ReliefRequested => ReliefRequestedBlock();
    case Verification => VerificationBlock();
    case Formatting => FormattingBlock();
    case Signature => SignatureBlock();
    case CertificateService => CertificateServiceBlock();
    case DateFiling => DateFilingBlock();
    case Exhibits => ExhibitsBlock();
    case ProposedOrder => ProposedOrderBlock();
    case UrgentEmergency => UrgentEmergencyBlock();
    case ProSe => ProSeBlock();
  }

  /** The id just after each category's block. */
  function NextId(cat: CheckCategory): int {
    match cat

    case Caption => 10
    case MotionContent => 22
    case CertificateNotice => 27
    case SecurityBond => 31
    case ReliefRequested => 36
    case Verification => 43
    case Formatting => 56
    case Signature => 65
    case CertificateService => 74
    case DateFiling => 78
    case Exhibits => 87
    case ProposedOrder => 98
    case UrgentEmergency => 104
    case ProSe => 108
  }

  /** Consecutive ids from `start`, every row well formed. */
  predicate IdsFrom(s: seq<ChecklistItem>, start: int) {
    forall i :: 0 <= i < |s| ==> s[i].id == start + i && InBlock(s[i].id, s[i].category) && WellFormedItem(s[i])
  }

  lemma ConcatIds(a: seq<ChecklistItem>, b: seq<ChecklistItem>, start: int)
    requires IdsFrom(a, start) && IdsFrom(b, start + |a|)
    ensures IdsFrom(a + b, start)
  {
    forall i | 0 <= i < |a + b|
      ensures (a + b)[i].id == start + i && InBlock((a + b)[i].id, (a + b)[i].category) && WellFormedItem((a + b)[i])
    {
      if i >= |a| {
        assert (a + b)[i] == b[i - |a|];
      }
    }
  }

  lemma BlockIds(cat: CheckCategory)
    ensures IdsFrom(CategoryItems(cat), FirstId(cat))
    ensures FirstId(cat) + |CategoryItems(cat)| == NextId(cat)
  {
    CategoryBlock(cat);
  }

  /**
   * The table holds 107 items whose ids are 1..107 in list order, so no two
   * items share an id; every automatic item names its detector routine and,
   * except item 54, a pattern or required text; manual items carry neither.
   */
  lemma TableIds()
    ensures |TroChecklist| == 107
    ensures forall i :: 0 <= i < |TroChecklist| ==> TroChecklist[i].id == i + 1
    ensures forall i :: 0 <= i < |TroChecklist| ==> InBlock(i + 1, TroChecklist[i].category)
    ensures forall i :: 0 <= i < |TroChecklist| ==> WellFormedItem(TroChecklist[i])
  {
    BlockIds(Caption);
    BlockIds(MotionContent);
    BlockIds(CertificateNotice);
    BlockIds(SecurityBond);
    BlockIds(ReliefRequested);
    BlockIds(Verification);
    BlockIds(Formatting);
    BlockIds(Signature);
    BlockIds(CertificateService);
    BlockIds(DateFiling);
    BlockIds(Exhibits);
    BlockIds(ProposedOrder);
    BlockIds(UrgentEmergency);
    BlockIds(ProSe);
    ConcatIds(CaptionItems, MotionContentItems, 1);
    ConcatIds(CaptionItems + MotionContentItems, CertificateNoticeItems, 1);
    ConcatIds(CaptionItems + MotionContentItems + CertificateNoticeItems, SecurityBondItems, 1);
    ConcatIds(CaptionItems + MotionContentItems + CertificateNoticeItems + SecurityBondItems, ReliefRequestedItems, 1);
    ConcatIds(CaptionItems + MotionContentItems + CertificateNoticeItems + SecurityBondItems + ReliefRequestedItems, VerificationItems, 1);
    ConcatIds(CaptionItems + MotionContentItems + CertificateNoticeItems + SecurityBondItems + ReliefRequestedItems + VerificationItems, FormattingItems, 1);
    ConcatIds(CaptionItems + MotionContentItems + CertificateNoticeItems + SecurityBondItems + ReliefRequestedItems + VerificationItems + FormattingItems, SignatureItems, 1);
    ConcatIds(CaptionItems + MotionContentItems + CertificateNoticeItems + SecurityBondItems + ReliefRequestedItems + VerificationItems + FormattingItems + SignatureItems, CertificateServiceItems, 1);
    ConcatIds(CaptionItems + MotionContentItems + CertificateNoticeItems + SecurityBondItems + ReliefRequestedItems + VerificationItems + FormattingItems + SignatureItems + CertificateServiceItems, DateFilingItems, 1);
    ConcatIds(CaptionItems + MotionContentItems + CertificateNoticeItems + SecurityBondItems + ReliefRequestedItems + VerificationItems + FormattingItems + SignatureItems + CertificateServiceItems + DateFilingItems, ExhibitsItems, 1);
    ConcatIds(CaptionItems + MotionContentItems + CertificateNoticeItems + SecurityBondItems + ReliefRequestedItems + VerificationItems + FormattingItems + SignatureItems + CertificateServiceItems + DateFilingItems + ExhibitsItems, ProposedOrderItems, 1);
    ConcatIds(CaptionItems + MotionContentItems + CertificateNoticeItems + SecurityBondItems + ReliefRequestedItems + VerificationItems + FormattingItems + SignatureItems + CertificateServiceItems + DateFilingItems + ExhibitsItems + ProposedOrderItems, UrgentEmergencyItems, 1);
    ConcatIds(CaptionItems + MotionContentItems + CertificateNoticeItems + SecurityBondItems + ReliefRequestedItems + VerificationItems + FormattingItems + SignatureItems + CertificateServiceItems + DateFilingItems + ExhibitsItems + ProposedOrderItems + UrgentEmergencyItems, ProSeItems, 1);
  }

  /** `get_checklist_by_category`: the category's own block of the table, in table order. */
  function GetChecklistByCategory(cat: CheckCategory): (r: seq<ChecklistItem>)
    ensures forall x :: x in r <==> x in TroChecklist && x.category == cat
  {
    FilterCategorySpec(TroChecklist, cat);
    FilterCategory(TroChecklist, cat)
  }

  /** The id range `[FirstId(cat), NextId(cat))` of a category's block. */
  predicate InBlock(id: int, cat: CheckCategory) {
    FirstId(cat) <= id < NextId(cat)
  }

  /** The id ranges of distinct categories do not overlap. */
  lemma BlocksDisjoint(id: int, c1: CheckCategory, c2: CheckCategory)
    requires InBlock(id, c1) && InBlock(id, c2)
    ensures c1 == c2
  {
  }

  /**
   * `get_checklist_by_category` returns exactly the items of the category,
   * and they form the contiguous block `[FirstId(cat), NextId(cat))` of the
   * table, in table order.
   */
  lemma ByCategoryIsBlock(cat: CheckCategory)
    ensures GetChecklistByCategory(cat) == TroChecklist[FirstId(cat) - 1..NextId(cat) - 1]
  {
    TableIds();
    forall i | 0 <= i < |TroChecklist|
      ensures TroChecklist[i].category == cat <==> FirstId(cat) - 1 <= i < NextId(cat) - 1
    {
      if InBlock(i + 1, cat) {
        BlocksDisjoint(i + 1, cat, TroChecklist[i].category);
      }
    }
    FilterSlice(TroChecklist, cat, FirstId(cat) - 1, NextId(cat) - 1);
  }

  /** `get_auto_checkable_items`: the automatic items, in table order. */
  function GetAutoCheckableItems(): seq<ChecklistItem> {
    FilterAuto(TroChecklist, true)
  }

  /** The automatic list holds exactly the table's automatic items. */
  lemma AutoCheckableItemsSpec()
    ensures forall x :: x in GetAutoCheckableItems() <==> x in TroChecklist && x.autoCheckable
  {
    FilterAutoSpec(TroChecklist, true);
  }

  /** `get_manual_items`: the items that need manual review, in table order. */
  function GetManualItems(): seq<ChecklistItem> {
    FilterAuto(TroChecklist, false)
  }

  /** The manual list holds exactly the table's manual items. */
  lemma ManualItemsSpec()
    ensures forall x :: x in GetManualItems() <==> x in TroChecklist && !x.autoCheckable
  {
    FilterAutoSpec(TroChecklist, false);
  }

  /** `get_item_by_id` */
  function GetItemById(id: int): (r: Option<ChecklistItem>)
    ensures r.Some? ==> r.value in TroChecklist && r.value.id == id
    ensures r.None? <==> forall x :: x in TroChecklist ==> x.id != id
  {
    FindById(TroChecklist, id)
  }

  /** The items with ids 1..107 are found at their position; every other id gives `None`. */
  lemma GetItemByIdTable(id: int)
    ensures 1 <= id <= 107 ==> GetItemById(id) == Some(TroChecklist[id - 1])
    ensures !(1 <= id <= 107) ==> GetItemById(id) == None
  {
    TableIds();
    FindByIdConsecutive(TroChecklist, id);
  }

  /** `AUTO_CHECKABLE_COUNT` */
  function AutoCheckableCount(): nat { |GetAutoCheckableItems()| }

  /** `MANUAL_REVIEW_COUNT` */
  function ManualReviewCount(): nat { |GetManualItems()| }

  /** `TOTAL_ITEMS` */
  function TotalItems(): nat { |TroChecklist| }

  /** The automatic and manual lists partition the table of 107 items. */
  lemma CountsAddUp()
    ensures AutoCheckableCount() + ManualReviewCount() == TotalItems() == 107
  {
    TableIds();
    FilterAutoPartition(TroChecklist);
  }
}
