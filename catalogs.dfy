/** The four requirement catalogs the store starts from: documents for the
    seminar-proposal registration, for the thesis-defense registration, and the
    two sets of documents due after each exam. */
module Catalogs {
  import opened Strings
  import opened Types

  function Req(id: string, caption: string, description: Option<string>, acceptedTypes: Option<string>): FileRequirement
  {
    FileRequirement(id, caption, description, true, acceptedTypes)
  }

  /** Documents for the seminar-proposal registration. */
  function ProposalRequirements(): seq<FileRequirement>
  {
    [ Req("sk_pembimbing", "Upload SK Pembimbing", Some("Surat Keputusan penetapan dosen pembimbing."), None),
      Req("draft_proposal", "Draft Proposal", None, Some(".pdf,.doc,.docx")),
      Req("turnitin", "Hasil Cek Plagiat", Some("Maksimal 30%, Dicek menggunakan TURNITIN."), None),
      Req("logbook", "Bukti Logbook Konsultasi", Some("Min. 4x bimbingan masing-masing pembimbing 1 & 2."), None),
      Req("seminar_proof", "Bukti Mengikuti Seminar", Some("Bukti sudah mengikuti minimal 2x Seminar."), None),
      Req("opponent_proof", "Bukti Sebagai Penyanggah", None, None),
      Req("references", "Jurnal Referensi", Some("Jurnal utama yang digunakan dalam proposal."), None),
      Req("payment", "Bukti Lunas Pembayaran", None, None) ]
  }

  /** Documents for the thesis-defense registration. */
  function SkripsiRequirements(): seq<FileRequirement>
  {
    [ Req("draft_skripsi", "Draft Skripsi", None, Some(".pdf,.doc,.docx")),
      Req("sk_pembimbing", "Upload SK Pembimbing", None, None),
      Req("sk_penguji", "Upload SK Penguji", None, None),
      Req("logbook_bimbingan", "Logbook Bimbingan", Some("4x Pembimbing 1 dan 4x Pembimbing 2."), None),
      Req("logbook_penelitian", "Logbook Pelaksanaan Penelitian", None, None),
      Req("transkrip", "Transkrip Sementara", None, None),
      Req("izin_penelitian", "Surat Ijin Penelitian", None, None),
      Req("balasan_penelitian", "Surat Balasan Penelitian", Some("Dari instansi/tempat sampel/lab."), None),
      Req("bebas_admin", "Keterangan Bebas Administrasi", Some("Akademik, Keuangan, dan Laboratorium."), None),
      Req("payment_seminar", "Bukti Lunas Pembayaran Seminar", None, None),
      Req("cert_ospek", "Scan Sertifikat OSPEK", None, None),
      Req("cert_toefl", "Scan Sertifikat TOEFL", None, None),
      Req("cert_esq", "Scan Sertifikat ESQ", None, None),
      Req("turnitin_final", "Hasil Cek Plagiat Final", Some("Maksimal 30%."), None) ]
  }

  /** Documents due after the seminar proposal. */
  function ProposalRevisionRequirements(): seq<FileRequirement>
  {
    [ Req("ppt_sempro", "File Presentasi (PPT)", Some("Materi presentasi saat seminar."), Some(".ppt,.pptx,.pdf")),
      Req("lembar_pengesahan", "Scan Lembar Pengesahan", Some("Yang telah ditandatangani Pembimbing & Penguji."), Some(".pdf,.jpg")),
      Req("abstrak", "File Abstrak", Some("Abstrak hasil perbaikan."), Some(".doc,.docx,.pdf")) ]
  }

  /** Documents due after the thesis defense. */
  function SkripsiRevisionRequirements(): seq<FileRequirement>
  {
    [ Req("ppt_sidang", "File Presentasi (PPT) Sidang", None, Some(".ppt,.pptx,.pdf")),
      Req("lembar_pengesahan_skripsi", "Scan Lembar Pengesahan Skripsi", Some("Full Tanda Tangan Basah/Digital."), Some(".pdf,.jpg")),
      Req("abstrak_final", "File Abstrak Final", None, Some(".doc,.docx,.pdf")) ]
  }

  predicate AllRequired(c: seq<FileRequirement>)
  {
    forall i :: 0 <= i < |c| ==> c[i].required
  }

  predicate DistinctIds(c: seq<FileRequirement>)
  {
    forall i, j :: 0 <= i < j < |c| ==> c[i].id != c[j].id
  }

  /** The length and the two end characters of an id; ids that differ in
      any of these differ. */
  function Fingerprint(id: string): (int, char, char)
  {
    if id == [] then (0, ' ', ' ') else (|id|, id[0], id[|id| - 1])
  }

  lemma DistinctByFingerprint(c: seq<FileRequirement>)
    requires forall i, j :: 0 <= i < j < |c| ==> Fingerprint(c[i].id) != Fingerprint(c[j].id)
    ensures DistinctIds(c)
  {
  }

  /** Eight proposal documents, all mandatory, no id twice. */
  lemma ProposalCatalogFacts()
    ensures |ProposalRequirements()| == 8
    ensures AllRequired(ProposalRequirements()) && DistinctIds(ProposalRequirements())
  {
    DistinctByFingerprint(ProposalRequirements());
  }

  /** Fourteen thesis documents, all mandatory, no id twice. */
  lemma SkripsiCatalogFacts()
    ensures |SkripsiRequirements()| == 14
    ensures AllRequired(SkripsiRequirements()) && DistinctIds(SkripsiRequirements())
  {
    DistinctByFingerprint(SkripsiRequirements());
  }

  /** Three documents after each exam, all mandatory, no id twice. */
  lemma RevisionCatalogFacts()
    ensures |ProposalRevisionRequirements()| == 3 && |SkripsiRevisionRequirements()| == 3
    ensures AllRequired(ProposalRevisionRequirements()) && DistinctIds(ProposalRevisionRequirements())
    ensures AllRequired(SkripsiRevisionRequirements()) && DistinctIds(SkripsiRevisionRequirements())
  {
  }

  /** The advisor decree is asked for at both registrations. */
  lemma SharedAdvisorDecree()
    ensures ProposalRequirements()[0].id == SkripsiRequirements()[1].id == "sk_pembimbing"
  {
  }
}
